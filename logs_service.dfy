/**
 * The logging service as the retention normaliser sees it: a set of named log groups,
 * each with or without a retention setting, listed page by page in a fixed order, and a
 * call that sets the retention of one named group. Each call the normaliser makes is
 * recorded, so that what was asked of the service (and in which order) can be stated.
 */
module LogsService {
  import opened Wrappers

  /** A log group descriptor: `retention` is `None` when the `retentionInDays` key is absent. */
  datatype LogGroup = LogGroup(name: string, retention: Option<int>)

  /** A request made to the service. */
  datatype Call =
    | Describe(token: Option<nat>)            // one describe_log_groups page request
    | PutRetention(name: string, days: int)   // one put_retention_policy request

  /** Group names are listed once each, and a name is listed exactly when the group exists. */
  ghost predicate WellFormed(order: seq<string>, groups: map<string, Option<int>>)
  {
    && (forall n :: n in groups <==> n in order)
    && (forall i, j :: 0 <= i < j < |order| ==> order[i] != order[j])
  }

  /** The descriptors of the groups named by `order`, in that order. */
  function ListingOf(order: seq<string>, groups: map<string, Option<int>>): (listing: seq<LogGroup>)
    requires forall i :: 0 <= i < |order| ==> order[i] in groups
    ensures |listing| == |order|
    ensures forall i :: 0 <= i < |order| ==> listing[i] == LogGroup(order[i], groups[order[i]])
  {
    seq(|order|, i requires 0 <= i < |order| => LogGroup(order[i], groups[order[i]]))
  }

  /**
   * The pages the service returns for a listing: consecutive slices of at most `size`
   * descriptors. There is always at least one page, possibly empty.
   */
  function Chunk(s: seq<LogGroup>, size: nat): (pages: seq<seq<LogGroup>>)
    requires size > 0
    ensures |pages| >= 1
    ensures forall p :: 0 <= p < |pages| ==> |pages[p]| <= size
    ensures forall p :: 0 <= p < |pages| - 1 ==> |pages[p]| == size
    decreases |s|
  {
    if |s| <= size then [s] else [s[..size]] + Chunk(s[size..], size)
  }

  /** The page a describe request with this pagination token asks for. */
  function PageIndex(token: Option<nat>): nat
  {
    if token.None? then 0 else token.value
  }

  /**
   * A logging-service account in one region: the retention of each log group by name,
   * the order in which the service lists them, its page size, and the calls made so far.
   */
  class LogsClient {
    var groups: map<string, Option<int>>
    var order: seq<string>
    var pageSize: nat
    var calls: seq<Call>

    ghost predicate Valid()
      reads this
    {
      pageSize > 0 && WellFormed(order, groups)
    }

    /** Every descriptor the service would list now, in listing order. */
    function Listing(): (listing: seq<LogGroup>)
      reads this
      requires Valid()
      ensures |listing| == |order|
    {
      ListingOf(order, groups)
    }

    /** The pages a full listing would return now. */
    function Pages(): (pages: seq<seq<LogGroup>>)
      reads this
      requires Valid()
      ensures |pages| >= 1
    {
      Chunk(Listing(), pageSize)
    }

    constructor (groups: map<string, Option<int>>, order: seq<string>, pageSize: nat)
      requires pageSize > 0 && WellFormed(order, groups)
      ensures Valid()
      ensures this.groups == groups && this.order == order && this.pageSize == pageSize
      ensures calls == []
    {
      this.groups := groups;
      this.order := order;
      this.pageSize := pageSize;
      this.calls := [];
    }

    /**
     * describe_log_groups: returns the page the token names and the token of the next
     * page, or `None` after the last page.
     */
    method DescribeLogGroups(token: Option<nat>) returns (page: seq<LogGroup>, next: Option<nat>)
      requires Valid()
      requires PageIndex(token) < |Pages()|
      modifies this`calls
      ensures calls == old(calls) + [Describe(token)]
      ensures page == Pages()[PageIndex(token)]
      ensures next == if PageIndex(token) + 1 < |Pages()| then Some(PageIndex(token) + 1) else None
    {
      var pages := Pages();
      var p := PageIndex(token);
      page := pages[p];
      next := if p + 1 < |pages| then Some(p + 1) else None;
      calls := calls + [Describe(token)];
    }

    /**
     * put_retention_policy: sets the retention of the named group. The call fails, and
     * changes nothing, when no group has that name.
     */
    method PutRetentionPolicy(name: string, days: int) returns (ok: bool)
      requires Valid()
      modifies this`groups, this`calls
      ensures Valid()
      ensures ok == (name in old(groups))
      ensures groups == if ok then old(groups)[name := Some(days)] else old(groups)
      ensures calls == old(calls) + [PutRetention(name, days)]
    {
      ok := name in groups;
      if ok {
        groups := groups[name := Some(days)];
      }
      calls := calls + [PutRetention(name, days)];
    }
  }
}
