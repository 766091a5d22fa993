/**
 * The retention normaliser (final_solution/lambda/lambda.py): list every log group,
 * keep those without a `retentionInDays` key, and set the configured retention on each.
 */
module RetentionLambda {
  import opened Wrappers
  import opened LogsService

  /** A (logGroupName, retentionInDays) pair the normaliser will apply. */
  type Target = (string, int)

  /** The retention periods, in days, the handler accepts. */
  const ValidRetentionValues: seq<int> :=
    [1, 3, 5, 7, 14, 30, 60, 90, 120, 150, 180, 365, 400, 545, 731, 1827, 3653]

  /** The retention used when RETENTION_DAYS is not set. */
  const DefaultRetentionDays: int := 545

  /** Why a handler run stops without returning the success response. */
  datatype Error =
    | InvalidRetention(days: int)     // the allow-list assertion failed
    | ResourceNotFound(name: string)  // put_retention_policy named a group that does not exist

  predicate IsValidRetention(days: int)
  {
    days in ValidRetentionValues
  }

  /** The retention the handler uses, given the RETENTION_DAYS setting (`None` when unset). */
  function EffectiveRetention(retentionEnv: Option<int>): int
  {
    if retentionEnv.None? then DefaultRetentionDays else retentionEnv.value
  }

  /** The default needs no configuration to pass the allow-list check. */
  lemma DefaultPassesValidation()
    ensures EffectiveRetention(None) == 545
    ensures IsValidRetention(EffectiveRetention(None))
  {
  }

  /** Exactly the 17 listed values, and no other integer, pass the allow-list check. */
  lemma AllowList(days: int)
    ensures IsValidRetention(days) <==>
      days in {1, 3, 5, 7, 14, 30, 60, 90, 120, 150, 180, 365, 400, 545, 731, 1827, 3653}
    ensures |ValidRetentionValues| == 17
  {
  }

  // ---------------------------------------------------------------------------------
  // all_log_groups: the pages concatenated in page order

  function Flatten(pages: seq<seq<LogGroup>>): seq<LogGroup>
    decreases |pages|
  {
    if pages == [] then [] else Flatten(pages[..|pages| - 1]) + pages[|pages| - 1]
  }

  /** Flattening distributes over concatenation of page sequences. */
  lemma {:induction false} FlattenConcat(a: seq<seq<LogGroup>>, b: seq<seq<LogGroup>>)
    ensures Flatten(a + b) == Flatten(a) + Flatten(b)
    decreases |b|
  {
    if b != [] {
      var b' := b[..|b| - 1];
      assert (a + b)[..|a + b| - 1] == a + b';
      FlattenConcat(a, b');
    } else {
      assert a + b == a;
    }
  }

  /** Element `j` of page `p` sits right after the descriptors of the pages before `p`. */
  lemma FlattenPageOrder(pages: seq<seq<LogGroup>>, p: nat, j: nat)
    requires p < |pages| && j < |pages[p]|
    ensures |Flatten(pages[..p])| + j < |Flatten(pages)|
    ensures Flatten(pages)[|Flatten(pages[..p])| + j] == pages[p][j]
  {
    assert pages == pages[..p] + [pages[p]] + pages[p + 1..];
    FlattenConcat(pages[..p] + [pages[p]], pages[p + 1..]);
    FlattenConcat(pages[..p], [pages[p]]);
    assert Flatten([pages[p]]) == pages[p] by {
      assert [pages[p]][..0] == [];
    }
  }

  /** How often `g` occurs across all pages. */
  function Occurrences(pages: seq<seq<LogGroup>>, g: LogGroup): nat
    decreases |pages|
  {
    if pages == [] then 0
    else Occurrences(pages[..|pages| - 1], g) + multiset(pages[|pages| - 1])[g]
  }

  /** Each descriptor appears in the flattened listing as often as it occurs across pages. */
  lemma {:induction false} FlattenMultiplicity(pages: seq<seq<LogGroup>>, g: LogGroup)
    ensures multiset(Flatten(pages))[g] == Occurrences(pages, g)
    decreases |pages|
  {
    if pages != [] {
      FlattenMultiplicity(pages[..|pages| - 1], g);
    }
  }

  /** The service's pages, put back together, are its listing. */
  lemma {:induction false} FlattenChunk(s: seq<LogGroup>, size: nat)
    requires size > 0
    ensures Flatten(Chunk(s, size)) == s
    decreases |s|
  {
    if |s| <= size {
      assert [s][..0] == [];
    } else {
      FlattenChunk(s[size..], size);
      FlattenConcat([s[..size]], Chunk(s[size..], size));
      assert [s[..size]][..0] == [];
      assert s == s[..size] + s[size..];
    }
  }

  /** The calls a full listing of `n` pages makes: the first without a token. */
  function DescribeCalls(n: nat): (cs: seq<Call>)
    ensures |cs| == n
    ensures forall i :: 0 <= i < n ==> cs[i] == Describe(if i == 0 then None else Some(i))
  {
    seq(n, i requires 0 <= i < n => Describe(if i == 0 then None else Some(i as nat)))
  }

  /**
   * all_log_groups: requests pages, following the next-page token until there is none,
   * and concatenates them.
   */
  method AllLogGroups(client: LogsClient) returns (logGroups: seq<LogGroup>)
    requires client.Valid()
    modifies client`calls
    ensures logGroups == Flatten(client.Pages())
    ensures logGroups == client.Listing()
    ensures client.calls == old(client.calls) + DescribeCalls(|client.Pages()|)
  {
    ghost var pages := client.Pages();
    logGroups := [];
    var token: Option<nat> := None;
    var done := false;
    ghost var fetched: nat := 0;
    while !done
      invariant fetched <= |pages|
      invariant done <==> fetched == |pages|
      invariant !done ==> token == if fetched == 0 then None else Some(fetched)
      invariant logGroups == Flatten(pages[..fetched])
      invariant client.calls == old(client.calls) + DescribeCalls(fetched)
      decreases |pages| - fetched
    {
      var page, next := client.DescribeLogGroups(token);
      assert pages[..fetched + 1][..fetched] == pages[..fetched];
      logGroups := logGroups + page;
      assert DescribeCalls(fetched + 1) == DescribeCalls(fetched) + [Describe(token)];
      fetched := fetched + 1;
      if next.None? {
        done := true;
      } else {
        token := next;
      }
    }
    assert pages[..fetched] == pages;
    FlattenChunk(client.Listing(), client.pageSize);
  }

  // ---------------------------------------------------------------------------------
  // get_log_groups_without_retention: select by absence of the retention key

  /** One (name, days) pair per group without a retention key, in input order. */
  function WithoutRetention(groups: seq<LogGroup>, days: int): (targets: seq<Target>)
    ensures |targets| <= |groups|
    decreases |groups|
  {
    if groups == [] then []
    else
      var last := groups[|groups| - 1];
      WithoutRetention(groups[..|groups| - 1], days)
        + (if last.retention.None? then [(last.name, days)] else [])
  }

  /** The selection is made group by group: it distributes over concatenation. */
  lemma {:induction false} WithoutRetentionConcat(a: seq<LogGroup>, b: seq<LogGroup>, days: int)
    ensures WithoutRetention(a + b, days) == WithoutRetention(a, days) + WithoutRetention(b, days)
    decreases |b|
  {
    if b == [] {
      assert a + b == a;
    } else {
      assert (a + b)[..|a + b| - 1] == a + b[..|b| - 1];
      WithoutRetentionConcat(a, b[..|b| - 1], days);
    }
  }

  /** The positions of the groups that have no retention key, in increasing order. */
  function LackingIndices(groups: seq<LogGroup>): (idx: seq<nat>)
    ensures forall k :: 0 <= k < |idx| ==> idx[k] < |groups|
    ensures forall k, l :: 0 <= k < l < |idx| ==> idx[k] < idx[l]
    ensures forall i :: 0 <= i < |groups| ==> (groups[i].retention.None? <==> i in idx)
    decreases |groups|
  {
    if groups == [] then []
    else
      var n := |groups| - 1;
      LackingIndices(groups[..n]) + (if groups[n].retention.None? then [n] else [])
  }

  /**
   * The k-th pair comes from the k-th group without a retention key: exactly one pair per
   * such group, in input order, with the group's name and the configured days.
   */
  lemma {:induction false} WithoutRetentionSelects(groups: seq<LogGroup>, days: int)
    ensures |WithoutRetention(groups, days)| == |LackingIndices(groups)|
    ensures forall k :: 0 <= k < |LackingIndices(groups)| ==>
      WithoutRetention(groups, days)[k] == (groups[LackingIndices(groups)[k]].name, days)
    decreases |groups|
  {
    if groups != [] {
      var n := |groups| - 1;
      var prefix := groups[..n];
      WithoutRetentionSelects(prefix, days);
      var idx := LackingIndices(prefix);
      var before := WithoutRetention(prefix, days);
      var all := WithoutRetention(groups, days);
      assert all == before + (if groups[n].retention.None? then [(groups[n].name, days)] else []);
      assert LackingIndices(groups) == idx + (if groups[n].retention.None? then [n] else []);
      forall k | 0 <= k < |LackingIndices(groups)|
        ensures all[k] == (groups[LackingIndices(groups)[k]].name, days)
      {
        if k < |idx| {
          assert all[k] == before[k] == (prefix[idx[k]].name, days);
          assert prefix[idx[k]] == groups[idx[k]];
        }
      }
    }
  }

  /** A pair is produced exactly when it names a group listed without a retention key. */
  lemma {:induction false} WithoutRetentionMembership(groups: seq<LogGroup>, days: int, t: Target)
    ensures t in WithoutRetention(groups, days) <==> t.1 == days && LogGroup(t.0, None) in groups
    decreases |groups|
  {
    if groups != [] {
      var n := |groups| - 1;
      WithoutRetentionMembership(groups[..n], days, t);
      assert groups == groups[..n] + [groups[n]];
    }
  }

  /**
   * Only the presence of the key matters: groups that agree on names and on which of
   * them carry a retention (whatever its value, zero included) yield the same pairs.
   */
  lemma {:induction false} WithoutRetentionPresenceOnly(a: seq<LogGroup>, b: seq<LogGroup>, days: int)
    requires |a| == |b|
    requires forall i :: 0 <= i < |a| ==> a[i].name == b[i].name
    requires forall i :: 0 <= i < |a| ==> a[i].retention.None? == b[i].retention.None?
    ensures WithoutRetention(a, days) == WithoutRetention(b, days)
    decreases |a|
  {
    if a != [] {
      WithoutRetentionPresenceOnly(a[..|a| - 1], b[..|b| - 1], days);
    }
  }

  /** get_log_groups_without_retention: one pass over the groups, appending a pair per match. */
  method GetLogGroupsWithoutRetention(logGroups: seq<LogGroup>, retentionDays: int)
    returns (logGroupsWithoutRetention: seq<Target>)
    ensures logGroupsWithoutRetention == WithoutRetention(logGroups, retentionDays)
  {
    logGroupsWithoutRetention := [];
    var i := 0;
    while i < |logGroups|
      invariant 0 <= i <= |logGroups|
      invariant logGroupsWithoutRetention == WithoutRetention(logGroups[..i], retentionDays)
    {
      var logGroup := logGroups[i];
      assert logGroups[..i + 1][..i] == logGroups[..i];
      if logGroup.retention.None? {
        logGroupsWithoutRetention := logGroupsWithoutRetention + [(logGroup.name, retentionDays)];
      }
      i := i + 1;
    }
    assert logGroups[..i] == logGroups;
  }

  // ---------------------------------------------------------------------------------
  // update_log_groups_without_retention: one put_retention_policy call per pair

  /** The retention map after setting each pair, from first to last. */
  function ApplyTargets(m: map<string, Option<int>>, targets: seq<Target>): map<string, Option<int>>
    decreases |targets|
  {
    if targets == [] then m
    else
      var last := targets[|targets| - 1];
      ApplyTargets(m, targets[..|targets| - 1])[last.0 := Some(last.1)]
  }

  /** The put_retention_policy calls for the pairs, in pair order. */
  function PutCalls(targets: seq<Target>): (cs: seq<Call>)
    ensures |cs| == |targets|
    ensures forall k :: 0 <= k < |targets| ==> cs[k] == PutRetention(targets[k].0, targets[k].1)
  {
    seq(|targets|, k requires 0 <= k < |targets| => PutRetention(targets[k].0, targets[k].1))
  }

  /** Setting existing groups adds no group. */
  lemma {:induction false} ApplyTargetsKeys(m: map<string, Option<int>>, targets: seq<Target>)
    requires forall k :: 0 <= k < |targets| ==> targets[k].0 in m
    ensures ApplyTargets(m, targets).Keys == m.Keys
    decreases |targets|
  {
    if targets != [] {
      ApplyTargetsKeys(m, targets[..|targets| - 1]);
    }
  }

  /** A group no pair names keeps its retention. */
  lemma {:induction false} ApplyTargetsUntouched(m: map<string, Option<int>>, targets: seq<Target>, name: string)
    requires name in m
    requires forall k :: 0 <= k < |targets| ==> targets[k].0 != name
    ensures name in ApplyTargets(m, targets) && ApplyTargets(m, targets)[name] == m[name]
    decreases |targets|
  {
    if targets != [] {
      ApplyTargetsUntouched(m, targets[..|targets| - 1], name);
    }
  }

  /** A named group ends with the days of the last pair that names it. */
  lemma {:induction false} ApplyTargetsLastWins(m: map<string, Option<int>>, targets: seq<Target>, k: nat)
    requires k < |targets|
    requires forall j :: k < j < |targets| ==> targets[j].0 != targets[k].0
    ensures targets[k].0 in ApplyTargets(m, targets)
    ensures ApplyTargets(m, targets)[targets[k].0] == Some(targets[k].1)
    decreases |targets|
  {
    if k < |targets| - 1 {
      ApplyTargetsLastWins(m, targets[..|targets| - 1], k);
    }
  }

  /** When every pair carries the same days, every named group ends with those days. */
  lemma {:induction false} ApplyTargetsUniform(m: map<string, Option<int>>, targets: seq<Target>, days: int, k: nat)
    requires k < |targets|
    requires forall j :: 0 <= j < |targets| ==> targets[j].1 == days
    ensures targets[k].0 in ApplyTargets(m, targets)
    ensures ApplyTargets(m, targets)[targets[k].0] == Some(days)
    decreases |targets|
  {
    var n := |targets| - 1;
    if targets[n].0 != targets[k].0 {
      ApplyTargetsUniform(m, targets[..n], days, k);
    }
  }

  /** The position of the first pair naming a group that does not exist, or |targets|. */
  function FirstMissing(m: map<string, Option<int>>, targets: seq<Target>): (k: nat)
    ensures k <= |targets|
    ensures forall j :: 0 <= j < k ==> targets[j].0 in m
    ensures k < |targets| ==> targets[k].0 !in m
    decreases |targets|
  {
    if targets == [] || targets[0].0 !in m then 0 else 1 + FirstMissing(m, targets[1..])
  }

  /** update_log_group_retention_setting: one put_retention_policy call. */
  method UpdateLogGroupRetentionSetting(client: LogsClient, logGroupName: string, retentionDays: int)
    returns (ok: bool)
    requires client.Valid()
    modifies client`groups, client`calls
    ensures client.Valid()
    ensures ok == (logGroupName in old(client.groups))
    ensures client.groups == if ok then old(client.groups)[logGroupName := Some(retentionDays)]
                             else old(client.groups)
    ensures client.calls == old(client.calls) + [PutRetention(logGroupName, retentionDays)]
  {
    ok := client.PutRetentionPolicy(logGroupName, retentionDays);
  }

  /**
   * update_log_groups_without_retention: sets each pair in order; the first call that
   * fails ends the loop, and the pairs after it are not attempted.
   */
  method UpdateLogGroupsWithoutRetention(client: LogsClient, logGroupsTuples: seq<Target>)
    returns (outcome: Result<(), Error>)
    requires client.Valid()
    modifies client`groups, client`calls
    ensures client.Valid()
    ensures client.groups.Keys == old(client.groups).Keys
    ensures var k := FirstMissing(old(client.groups), logGroupsTuples);
      && outcome == (if k == |logGroupsTuples| then Success(())
                     else Failure(ResourceNotFound(logGroupsTuples[k].0)))
      && client.groups == ApplyTargets(old(client.groups), logGroupsTuples[..k])
      && client.calls == old(client.calls)
           + PutCalls(logGroupsTuples[..if k == |logGroupsTuples| then k else k + 1])
  {
    ghost var k := FirstMissing(client.groups, logGroupsTuples);
    var i := 0;
    while i < |logGroupsTuples|
      invariant 0 <= i <= k
      invariant client.Valid()
      invariant client.groups.Keys == old(client.groups).Keys
      invariant client.groups == ApplyTargets(old(client.groups), logGroupsTuples[..i])
      invariant client.calls == old(client.calls) + PutCalls(logGroupsTuples[..i])
    {
      var target := logGroupsTuples[i];
      var ok := UpdateLogGroupRetentionSetting(client, target.0, target.1);
      assert PutCalls(logGroupsTuples[..i + 1]) == PutCalls(logGroupsTuples[..i]) + [PutRetention(target.0, target.1)];
      if !ok {
        return Failure(ResourceNotFound(target.0));
      }
      assert logGroupsTuples[..i + 1][..i] == logGroupsTuples[..i];
      i := i + 1;
    }
    assert logGroupsTuples[..i] == logGroupsTuples;
    return Success(());
  }

  // ---------------------------------------------------------------------------------
  // lambda_handler and what one run achieves

  /** Every pair the filter makes from a listing names an existing group. */
  lemma TargetsExist(order: seq<string>, groups: map<string, Option<int>>, days: int)
    requires WellFormed(order, groups)
    ensures forall k :: 0 <= k < |WithoutRetention(ListingOf(order, groups), days)| ==>
      WithoutRetention(ListingOf(order, groups), days)[k].0 in groups
  {
    var listing := ListingOf(order, groups);
    var targets := WithoutRetention(listing, days);
    forall k | 0 <= k < |targets|
      ensures targets[k].0 in groups
    {
      assert targets[k] in targets;
      WithoutRetentionMembership(listing, days, targets[k]);
    }
  }

  /**
   * After the pairs from a full listing are applied, each group that had no retention has
   * `days`, every other group keeps its retention, and no group is added.
   */
  lemma Remediates(order: seq<string>, groups: map<string, Option<int>>, days: int)
    requires WellFormed(order, groups)
    ensures var after := ApplyTargets(groups, WithoutRetention(ListingOf(order, groups), days));
      && after.Keys == groups.Keys
      && forall n :: n in groups ==>
           after[n] == if groups[n].None? then Some(days) else groups[n]
  {
    var listing := ListingOf(order, groups);
    var targets := WithoutRetention(listing, days);
    TargetsExist(order, groups, days);
    ApplyTargetsKeys(groups, targets);
    forall k | 0 <= k < |targets|
      ensures targets[k].1 == days
    {
      assert targets[k] in targets;
      WithoutRetentionMembership(listing, days, targets[k]);
    }
    forall n | n in groups
      ensures ApplyTargets(groups, targets)[n] == if groups[n].None? then Some(days) else groups[n]
    {
      var i :| 0 <= i < |order| && order[i] == n;
      if groups[n].None? {
        assert listing[i] == LogGroup(n, None);
        WithoutRetentionMembership(listing, days, (n, days));
        var k :| 0 <= k < |targets| && targets[k] == (n, days);
        ApplyTargetsUniform(groups, targets, days, k);
      } else {
        forall k | 0 <= k < |targets|
          ensures targets[k].0 != n
        {
          assert targets[k] in targets;
          WithoutRetentionMembership(listing, days, targets[k]);
        }
        ApplyTargetsUntouched(groups, targets, n);
      }
    }
  }

  /** Once every group has a retention, a listing yields no pairs: a second run sets nothing. */
  lemma NothingLeftToSet(order: seq<string>, groups: map<string, Option<int>>, days: int)
    requires WellFormed(order, groups)
    requires forall n :: n in groups ==> groups[n].Some?
    ensures WithoutRetention(ListingOf(order, groups), days) == []
  {
    var listing := ListingOf(order, groups);
    var targets := WithoutRetention(listing, days);
    if targets != [] {
      assert targets[0] in targets;
      WithoutRetentionMembership(listing, days, targets[0]);
    }
  }

  /**
   * Applying a run's pairs keeps the account well formed and leaves nothing for a second
   * selection to pick: a second run issues no put.
   */
  lemma RunIsIdempotent(order: seq<string>, groups: map<string, Option<int>>, days: int)
    requires WellFormed(order, groups)
    ensures var after := ApplyTargets(groups, WithoutRetention(ListingOf(order, groups), days));
      && WellFormed(order, after)
      && WithoutRetention(ListingOf(order, after), days) == []
  {
    var after := ApplyTargets(groups, WithoutRetention(ListingOf(order, groups), days));
    Remediates(order, groups, days);
    assert forall n :: n in after ==> after[n].Some?;
    NothingLeftToSet(order, after, days);
  }

  /**
   * lambda_handler: validate the retention, list every group, select those without a
   * retention key, set the retention on each, and return the success response.
   */
  method LambdaHandler(client: LogsClient, retentionEnv: Option<int>)
    returns (response: Result<map<string, string>, Error>)
    requires client.Valid()
    modifies client
    ensures client.Valid()
    ensures var days := EffectiveRetention(retentionEnv);
      !IsValidRetention(days) ==> response == Failure(InvalidRetention(days)) && unchanged(client)
    ensures var days := EffectiveRetention(retentionEnv);
      IsValidRetention(days) ==>
        var targets := WithoutRetention(old(client.Listing()), days);
        && response == Success(map["response" := "success"])
        && client.order == old(client.order) && client.pageSize == old(client.pageSize)
        && client.groups == ApplyTargets(old(client.groups), targets)
        && client.calls == old(client.calls) + DescribeCalls(|old(client.Pages())|) + PutCalls(targets)
        && client.groups.Keys == old(client.groups).Keys
        && (forall n :: n in old(client.groups) ==>
              client.groups[n] == if old(client.groups)[n].None? then Some(days) else old(client.groups)[n])
  {
    var retentionDays := EffectiveRetention(retentionEnv);
    if !IsValidRetention(retentionDays) {
      return Failure(InvalidRetention(retentionDays));
    }
    ghost var order, groups := client.order, client.groups;
    var logGroups := AllLogGroups(client);
    var logGroupsWithoutRetention := GetLogGroupsWithoutRetention(logGroups, retentionDays);
    TargetsExist(order, groups, retentionDays);
    Remediates(order, groups, retentionDays);
    var outcome := UpdateLogGroupsWithoutRetention(client, logGroupsWithoutRetention);
    match outcome {
      case Failure(e) =>
        // TargetsExist rules this out: every selected name exists.
        assert false;
        return Failure(e);
      case Success(_) =>
    }
    assert logGroupsWithoutRetention[..|logGroupsWithoutRetention|] == logGroupsWithoutRetention;
    return Success(map["response" := "success"]);
  }
}

/** A run against three groups, one of which already has a retention, split over two pages. */
module RetentionLambdaExample {
  import opened Wrappers
  import opened LogsService
  import opened RetentionLambda

  method HandlerExample()
  {
    var groups := map["a" := Some(7), "b" := None, "c" := None];
    var client := new LogsClient(groups, ["a", "b", "c"], 2);
    var response := LambdaHandler(client, None);
    assert response == Success(map["response" := "success"]);
    var listing := [LogGroup("a", Some(7)), LogGroup("b", None), LogGroup("c", None)];
    assert ListingOf(["a", "b", "c"], groups) == listing;
    assert WithoutRetention(listing, 545) == [("b", 545), ("c", 545)];
    assert Chunk(listing, 2) == [listing[..2], listing[2..]];
    assert client.calls == [Describe(None), Describe(Some(1)),
                            PutRetention("b", 545), PutRetention("c", 545)];
    assert client.groups == map["a" := Some(7), "b" := Some(545), "c" := Some(545)];
  }
}
