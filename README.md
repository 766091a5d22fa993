# Log-group retention normaliser, modelled in Dafny

The repository holds one AWS Lambda function, `final_solution/lambda/lambda.py`. The function lists every CloudWatch Logs log group in a region. It keeps the groups whose descriptor has no `retentionInDays` key. It then sets one configured retention period on each of them. The period comes from `RETENTION_DAYS`, defaults to 545 and must be one of 17 allowed values.

The project has three modules.

- `Wrappers` (`wrappers.dfy`) defines `Option` and `Result`.
- `LogsService` (`logs_service.dfy`) stands in for the logging service. A `LogGroup` is a name plus `Option<int>`, where `None` means the `retentionInDays` key is absent. The class `LogsClient` holds four fields: a map from group name to retention, the order in which groups are listed, the page size, and a log of every call made to it.
  - `DescribeLogGroups` returns one page and the token of the next page.
  - `PutRetentionPolicy` sets one group's retention. It fails when no group has that name.
- `RetentionLambda` (`retention_lambda.dfy`) models `lambda.py`. It has one method per function of the source:
  - `LambdaHandler`
  - `AllLogGroups`
  - `GetLogGroupsWithoutRetention`
  - `UpdateLogGroupsWithoutRetention`
  - `UpdateLogGroupRetentionSetting`

  Each of these methods is specified by a pure function:
  - `Flatten`: the pages concatenated.
  - `WithoutRetention`: the selected (name, days) pairs.
  - `ApplyTargets`: the retention map after the updates.
  - `PutCalls` and `DescribeCalls`: the calls issued.

  Lemmas then prove what the source promises about those functions.
- `RetentionLambdaExample` holds `HandlerExample`, a verified client of the handler. Its account has three groups split over two pages: one already has 7 days and two have no retention. It proves the response, the four calls and the final retentions.

The handler's environment input is a parameter, `retentionEnv: Option<int>`, where `None` means `RETENTION_DAYS` is unset. The boto3 client is the `LogsClient` object passed in. The source raises an exception on failure; the model returns a `Result` instead. `InvalidRetention` is the failed allow-list assertion. `ResourceNotFound` is a `put_retention_policy` call naming a group that does not exist. That exception propagates out of the update loop and out of the handler, so the model's loop stops at the first failing pair, does not attempt the pairs after it, and the handler returns that failure instead of the success response.

## Model

| member | source | states |
|---|---|---|
| RetentionLambda.DefaultPassesValidation | final_solution/lambda/lambda.py:25-47 | with RETENTION_DAYS unset the effective retention is 545, and 545 passes the allow-list check |
| RetentionLambda.AllowList | final_solution/lambda/lambda.py:26-47 | a value passes validation exactly when it is one of the 17 listed integers 1, 3, 5, 7, 14, 30, 60, 90, 120, 150, 180, 365, 400, 545, 731, 1827, 3653 |
| LogsService.LogsClient.DescribeLogGroups | final_solution/lambda/lambda.py:101-103 | a describe request returns the page its token names and the next page's token, or none after the last page, and is recorded in the call log |
| RetentionLambda.AllLogGroups | final_solution/lambda/lambda.py:98-105 | following tokens from the first page until none is returned yields the concatenation of all pages, which is the service's whole listing; exactly one describe call per page, the first without a token |
| RetentionLambda.FlattenConcat | final_solution/lambda/lambda.py:100-105 | concatenating pages distributes over splitting the page sequence |
| RetentionLambda.FlattenPageOrder | final_solution/lambda/lambda.py:100-105 | element j of page p appears in the result right after all descriptors of the pages before p: page order and in-page order are kept |
| RetentionLambda.FlattenMultiplicity | final_solution/lambda/lambda.py:100-105 | each descriptor occurs in the result exactly as many times as it occurs across all pages |
| RetentionLambda.FlattenChunk | final_solution/lambda/lambda.py:101-103 | the service's pages put back together are exactly its listing, so no group is lost or repeated by paging |
| RetentionLambda.WithoutRetention | final_solution/lambda/lambda.py:76-82 | the filter never yields more pairs than there are groups |
| RetentionLambda.GetLogGroupsWithoutRetention | final_solution/lambda/lambda.py:72-85 | the loop that appends a pair per group lacking the retention key returns exactly the selection `WithoutRetention` of its input |
| RetentionLambda.WithoutRetentionConcat | final_solution/lambda/lambda.py:78-82 | the selection is made group by group: filtering a + b gives the pairs of a followed by those of b |
| RetentionLambda.LackingIndices | final_solution/lambda/lambda.py:79 | the positions of groups lacking the key, strictly increasing, and a position is listed exactly when its group lacks the key |
| RetentionLambda.WithoutRetentionSelects | final_solution/lambda/lambda.py:76-82 | the k-th pair is (name, days) of the k-th group lacking the key: one pair per such group, in input order |
| RetentionLambda.WithoutRetentionMembership | final_solution/lambda/lambda.py:79-81 | a pair is produced if and only if its days are the configured days and a group of that name without the key is in the input |
| RetentionLambda.WithoutRetentionPresenceOnly | final_solution/lambda/lambda.py:79 | inputs that agree on names and on which groups carry the key give the same pairs, whatever the retention values (0 included) |
| LogsService.LogsClient.PutRetentionPolicy | final_solution/lambda/lambda.py:90-92 | a put sets the named group's retention and nothing else, fails without change when the group does not exist, and is recorded in the call log |
| RetentionLambda.UpdateLogGroupRetentionSetting | final_solution/lambda/lambda.py:87-95 | one put_retention_policy call with the given name and days, with the provider's effect |
| RetentionLambda.FirstMissing | final_solution/lambda/lambda.py:64-69 | the index of the first pair naming a missing group, or the number of pairs: every earlier pair names an existing group |
| RetentionLambda.UpdateLogGroupsWithoutRetention | final_solution/lambda/lambda.py:61-69 | one put call per pair in pair order, stopping after the first failing call; the map is the pairs up to that point applied in order, and the result says whether a call failed and for which name |
| RetentionLambda.ApplyTargetsKeys | final_solution/lambda/lambda.py:64-69 | updating existing groups adds no group |
| RetentionLambda.ApplyTargetsUntouched | final_solution/lambda/lambda.py:64-69 | a group no pair names keeps its retention |
| RetentionLambda.ApplyTargetsLastWins | final_solution/lambda/lambda.py:64-69 | a named group ends with the days of the last pair naming it |
| RetentionLambda.ApplyTargetsUniform | final_solution/lambda/lambda.py:64-69 | when all pairs carry the same days, every named group ends with those days |
| RetentionLambda.TargetsExist | final_solution/lambda/lambda.py:50-56 | every pair produced from a full listing names an existing group, so no update of a run fails |
| RetentionLambda.Remediates | final_solution/lambda/lambda.py:50-56 | after a run, each group that had no retention has the configured days, every other group keeps its value, and no group is added |
| RetentionLambda.NothingLeftToSet | final_solution/lambda/lambda.py:72-85 | once every group has a retention, the filter selects nothing |
| RetentionLambda.RunIsIdempotent | final_solution/lambda/lambda.py:50-58 | a second run after a completed run selects nothing and so issues no update |
| RetentionLambda.LambdaHandler | final_solution/lambda/lambda.py:22-58 | an invalid retention fails with InvalidRetention before any call, with the client unchanged; a valid one returns {"response": "success"}, after one describe per page and one put per group lacking retention in listing order, with those groups set to the configured days and all others unchanged |

## Left out

- Client construction (`get_logs_client`) and the module-level `ENVIRONMENT` and `REGION` reads (lambda.py:5-19) are left out. They choose the endpoint and credentials of the boto3 client; the model receives the client as a parameter. The model also does not capture that `os.environ["ENVIRONMENT"]` raises `KeyError` at import time when `ENVIRONMENT` is unset, so that no handler runs at all.
- The conversion of the `RETENTION_DAYS` string by `int()` is left out. A non-numeric string raises `ValueError` in the source; the model receives the setting already as an integer, or `None` when unset.
- The allow-list check is a Python `assert`, which `python -O` removes. The model always performs the check.
- The boto3 paginator is modelled as an explicit loop over page tokens. The token is the page index here, whereas the service uses an opaque string. The stand-in service always pages its listing as `Chunk(listing, pageSize)`: every page is full except the last, and a page is empty only when the whole account is. A service that returns short or empty pages in the middle of a listing is not represented. `AllLogGroups`'s result is the concatenation of the pages whatever they are; its equality with the whole listing rests on this paging.
- The `print` diagnostics (lambda.py:63, 74, 77, 83, 93-95) are left out. They are logging with no effect on behaviour.
- Provider failures other than a missing group are left out: throttling, permission errors and failed describe calls. So are concurrent changes to the account between listing and update. The source handles none of them. Only the missing-group failure of `put_retention_policy` is modelled, and it ends the update loop as the uncaught exception does.
- Other descriptor metadata (ARN, creation time, stored bytes) is not modelled. The filter reads only the name and whether the retention key is present.
- The test harness (`tests/testutils.py`, `tests/test_lambda.py`) is not part of this model. It zips, deploys and invokes the function against an emulator. `HandlerExample` proves, for one concrete account, the response `{"response": "success"}` that the test asserts.
