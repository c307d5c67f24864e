# zk-axon core, modelled in Dafny

This project models the deterministic core of zk-axon, the ZeroK API service.
zk-axon serves issue, incident, span and error views from a trace store, and
Prometheus-derived views of pods and alerts. The model covers these parts.

- **Trace-persistence repository.** The model covers:
  - the choice of SQL template and parameters for each query;
  - the row loops, which skip past or abort on a bad row;
  - the issue velocity;
  - the guarantee that the row cursor is closed exactly once on every path.
  
  The database is a `Database` class. It answers each query with fixed rows and logs the queries issued and the cursor closes.
- **Service layer.** Its paging guards and its mapping of repository errors to `DbError`.
- **Validators.** Of the query-string values.
- **Response assemblers.** The model covers:
  - the five-element cuts of issue samples;
  - `total_records` taken from the first row;
  - span maps keyed by span id, where the last row wins;
  - the span error flag;
  - fail-fast gzip decoding;
  - the trimming of Kubernetes pod hashes from service names.
- **Time utilities.** `HoursBetween`, `CalendarDaysBetween` and `ParseTimeString`. Instants and durations are integer nanoseconds.
- **Prometheus-side helpers.** The model covers:
  - the alert run grouping `findSeries`: an in-place sort of an `array`, then a scan into maximal runs one `step` apart;
  - the grouping of alerts by name and state;
  - label filtering and distinct-value counting;
  - metric-server detection and the connection-test decision table;
  - the empty-URL guard and integration acceptance;
  - the pod/namespace extraction from a trace;
  - the PromQL alternation;
  - the per-container usage and frame views.
- **Integrations.** The integration store lookups and `Integration.Equals`.

There is one Dafny module per Go source file.
- Helper modules model the Go semantics the code relies on:
  - `GoSlices`: nil versus empty slices.
  - `GoStrings`: `strings.Split`, `Join`, the trims, and `strconv.Atoi`.
  - `GoNumbers`: division truncating toward zero, and int64 saturation and wrap-around.
  - `Wrappers`: `Option` and `Result`.
- `ZkErrors` holds the error values the core builds.
- Map iteration order is unspecified in Go, so it is an input to the model:
  - loops over Go maps pick their next key with `:|`;
  - the alert flattening receives the order as a parameter.
- Loops that build state become methods with invariants. Each is proved equal to a specification function, and the lemmas about that function state the source's promises.
- `findSeries` appears twice in the source: in alertTimeSeriesResponse.go:49-82 and in internal/prometheus/service/prometheusService.go:646-679. The two are the same code, and both are modelled by `AlertTimeSeries.FindSeries`.

## Model

| member | source | states |
|---|---|---|
| GoNumbers.Clamp64 | utils/utils.go:30 | saturation to the int64 range, as `Time.Sub` does: in-range values kept, others clamped to the nearest bound |
| GoNumbers.Wrap64 | utils/utils.go:62 | two's-complement wrap-around of an int64 product: in range, congruent to the exact value modulo 2^64, and exact when it fits |
| GoNumbers.Quo | internal/scenarioDataPersistence/repository/tracePersistenceRepo.go:71 | Go's integer division, truncating toward zero: the remainder is smaller than the divisor and has the dividend's sign |
| GoNumbers.QuoOfNonNegative | internal/scenarioDataPersistence/repository/tracePersistenceRepo.go:71 | for a non-negative dividend and positive divisor the quotient is Euclidean division and lies between 0 and the dividend |
| GoNumbers.TruncReal | internal/prometheus/model/response/alertTimeSeriesResponse.go:58 | `int(float64)`: truncation toward zero, within one of the value on the side of zero |
| GoStrings.Atoi | internal/scenarioDataPersistence/validation/validation.go:72 | `strconv.Atoi`: succeeds exactly for an optionally signed decimal that fits in int64, with its value; a range error exactly when the leading digit run already exceeds 2^64-1 (whatever follows it) or the decimal does not fit in int64; a syntax error exactly for other text that is not a decimal |
| GoStrings.ParseInt64IgnoringError | internal/prometheus/service/prometheusService.go:391 | `strconv.ParseInt(step, 10, 64)` with the error dropped: always within int64; the parsed value when it parses, 0 on a syntax error, and on a range error the int64 bound of the sign (MinInt64 after "-", else MaxInt64) |
| GoStrings.LeadingDigits | internal/prometheus/service/prometheusService.go:391 | the leading digit run `strconv.ParseUint` reads before its first non-digit: all digits, a prefix of the input, and stopped by a non-digit or the end |
| GoStrings.LeadingDigitsOfDigits | internal/prometheus/service/prometheusService.go:391 | a text of digits only is its own leading digit run |
| GoStrings.LeadingDigitsStop | internal/prometheus/service/prometheusService.go:391 | digits followed by a non-digit have exactly those digits as leading run |
| GoStrings.OverflowingDecimal | internal/scenarioDataPersistence/validation/validation.go:72 | a decimal whose digits exceed 2^64-1 is outside int64 |
| GoStrings.OverflowBeforeSyntax | internal/prometheus/service/prometheusService.go:391 | digits above 2^64-1 followed by a non-digit give Atoi a range error and ParseInt MaxInt64 (MinInt64 after "-"): overflow is reported before the bad character |
| GoStrings.SyntaxBeforeRange | internal/prometheus/service/prometheusService.go:391 | digits above MaxInt64 but within 2^64-1 followed by a non-digit give a syntax error and 0 |
| GoStrings.Unsigned | internal/scenarioDataPersistence/validation/validation.go:72 | drops one leading sign, if any, and nothing else |
| GoStrings.TrimPrefix | internal/prometheus/handler/handlerUtils.go:46 | removes the prefix once when present, else returns the input |
| GoStrings.TrimSuffix | internal/prometheus/handler/handlerUtils.go:46 | removes the suffix once when present, else returns the input |
| GoStrings.SplitLength | internal/scenarioDataPersistence/model/response/metadataMapResponse.go:28 | `strings.Split` gives one more piece than there are separators |
| GoStrings.JoinSplit | internal/scenarioDataPersistence/model/response/metadataMapResponse.go:28-34 | joining the pieces of a split with the separator gives back the input |
| TimeUtils.Sub | utils/utils.go:30 | the difference of two instants, saturated to the int64 range as Go's `Time.Sub` does; exact whenever it fits |
| TimeUtils.HoursBetween | utils/utils.go:35-39 | the whole hours of the (saturated) difference, truncated toward zero: h hours ≤ d < h+1 hours for a non-negative difference, the mirror bound for a negative one |
| TimeUtils.HoursBetweenSame | utils/utils.go:35-39 | an instant is zero hours from itself |
| TimeUtils.HoursBetweenBackwards | utils/utils.go:35-39 | an end at least an hour before the start gives a negative count; an end less than an hour before gives 0 (truncation toward zero) |
| TimeUtils.HoursBetweenOrdered | utils/utils.go:35-39 | an end no earlier than the start gives a non-negative count, so the velocity denominator `HoursBetween + 1` is at least 1 |
| TimeUtils.TruncateToDay | utils/utils.go:28-29 | the start of the 24-hour period holding the instant: a multiple of a day, at most the instant and less than a day before it |
| TimeUtils.CalendarDaysBetween | utils/utils.go:27-33 | the whole days between the two truncated instants, exactly when their difference fits in int64 |
| TimeUtils.CalendarDaysSameDay | utils/utils.go:27-33 | two instants in the same day are 0 calendar days apart |
| TimeUtils.CalendarDaysAfterWholeDays | utils/utils.go:27-33 | moving n whole days forward gives n calendar days |
| TimeUtils.ParseTimeString | utils/utils.go:41-64 | an empty input or one not ending in "m", "h" or "d" is rejected as an unsupported format; when the unit is known but the number part fails `strconv.Atoi`, Atoi's own error (syntax or range) is returned; a success means the prefix parsed as an integer and the result is that integer times the unit, wrapped to int64 |
| TimeUtils.ParseTimeStringOverflow | utils/utils.go:56-60 | a number part whose leading digits exceed 2^64-1, followed by a non-digit, is rejected with Atoi's range error |
| TimeUtils.ParseTimeStringUnits | utils/utils.go:45-63 | every integer followed by a unit parses, to the integer times the unit (wrapped to int64) |
| TimeUtils.ParseTimeStringExact | utils/utils.go:62 | when the product fits in int64 it is returned exactly |
| TimeUtils.ParseTimeStringRejects | utils/utils.go:52-60 | "m" is rejected with Atoi's syntax error; "" and "5s" are rejected as unsupported |
| TimeUtils.ParseTimeStringRejectsFraction | utils/utils.go:56-60 | "1.5h" is rejected: the number part must be an integer |
| TimeUtils.ParseTimeStringNegative | utils/utils.go:56-63 | "-5m" parses to minus five minutes: the sign is accepted |
| ZkErrors.Plain | internal/scenarioDataPersistence/validation/validation.go:24 | an error built without metadata keeps its type and carries no metadata |
| ScenarioDto.Velocity | internal/scenarioDataPersistence/repository/tracePersistenceRepo.go:70-71 | the issue velocity is the total count divided by (hours between first and last sighting + 1), truncated: h·v ≤ count < h·(v+1) |
| ScenarioDto.VelocityOrdered | internal/scenarioDataPersistence/model/response/issueDetailsResponse.go:62-71 | with first ≤ last and a non-negative count the divisor is at least 1, the velocity lies between 0 and the count, and it is 0 when the count is below the divisor |
| ScenarioDto.VelocitySameInstant | internal/scenarioDataPersistence/model/response/issueDetailsResponse.go:62-71 | an issue first and last seen at the same instant has velocity equal to its count |
| ScenarioResponse.TraceIds | internal/scenarioDataPersistence/model/response/scenarioResponse.go:15-17 | one trace id per row, in row order |
| ScenarioResponse.ConvertScenarioTableDtoToTraceResponse | internal/scenarioDataPersistence/model/response/scenarioResponse.go:13-22 | the response list is non-nil (made before the loop) and holds the rows' trace ids in order |
| ScenarioResponse.ConvertIncidentToIncidentResponse | internal/scenarioDataPersistence/model/response/scenarioResponse.go:28-31 | the incident list is passed through unchanged, nil included |
| IntegrationsDto.Equals | internal/integrations/dto/datasources.go:21-23 | an integration always equals itself; that only the ids are compared is stated by EqualsIffSameId |
| IntegrationsDto.EqualsIffSameId | internal/integrations/dto/datasources.go:21-23 | two integrations are equal exactly when their ids are, whatever their other fields |
| IntegrationsDto.EqualsIsEquivalence | internal/integrations/dto/datasources.go:21-23 | the comparison is reflexive, symmetric and transitive |
| IntegrationsDto.EqualsIgnoresOtherFields | internal/integrations/dto/datasources.go:21-23 | changing the url, alias or flags of an integration keeps it equal to itself |
| IntegrationsManager.GetIntegrationById | internal/integrations/integrationsManager.go:43-45 | the integration stored under the id, or nil exactly when no key matches |
| IntegrationsManager.GetIntegrationsByType | internal/integrations/integrationsManager.go:47-55 | the result holds, keyed by their ids, only stored integrations of the type that are neither disabled nor deleted, and every such integration's id is a key |
| Validation.ValidateLimit | internal/scenarioDataPersistence/validation/validation.go:70-79 | no error exactly when the limit is empty or parses as an integer; otherwise the "limit is not an integer" error |
| Validation.ValidateOffset | internal/scenarioDataPersistence/validation/validation.go:81-90 | no error exactly when the offset is empty or parses as an integer; otherwise the same "limit is not an integer" error |
| Validation.OffsetRuleIsLimitRule | internal/scenarioDataPersistence/validation/validation.go:70-90 | the offset check is the limit check, error type included |
| Validation.ValidateLimitExamples | internal/scenarioDataPersistence/validation/validation.go:70-79 | "" and "-5" pass; "abc", "2.5" and any decimal beyond int64 are rejected |
| Validation.FirstError | internal/scenarioDataPersistence/validation/validation.go:10-20 | no error exactly when every check passes; otherwise the error of the first check that fails |
| Validation.FirstErrorOfThree | internal/scenarioDataPersistence/validation/validation.go:22-37 | for three checks, the first error in order |
| Validation.GetIssuesListWithDetails | internal/scenarioDataPersistence/validation/validation.go:10-20 | the first error of the limit check, then the offset check |
| Validation.ValidateIssueHashOffsetAndLimit | internal/scenarioDataPersistence/validation/validation.go:22-37 | the first error of the empty-hash check, the limit check and the offset check |
| Validation.ValidateGetSpanRawDataApi | internal/scenarioDataPersistence/validation/validation.go:39-51 | no error exactly when both ids are non-empty; an empty trace id is reported before an empty span id |
| Validation.ValidateGetIncidentDetailsApi | internal/scenarioDataPersistence/validation/validation.go:53-68 | the first error of the empty-trace-id check, the limit check and the offset check |
| Validation.ValidationOrder | internal/scenarioDataPersistence/validation/validation.go:10-37 | a bad limit is reported even when the offset is also bad; an empty hash wins over everything; the list check passes exactly when both checks pass |
| SpanResponse.ToSpanDetails | internal/scenarioDataPersistence/model/response/spanResponse.go:48-76 | every span field is copied; the error flag holds exactly when the workload-id list is non-nil, empty or not |
| SpanResponse.ConvertSpanToIncidentDetailsResponse | internal/scenarioDataPersistence/model/response/spanResponse.go:45-84 | the loop builds the span map of the rows, each row written under its span id in row order |
| SpanResponse.SpanMapKeys | internal/scenarioDataPersistence/model/response/spanResponse.go:45-84 | the keys of the map are exactly the rows' span ids |
| SpanResponse.SpanMapLastWins | internal/scenarioDataPersistence/model/response/spanResponse.go:78 | the entry under a span id is the one built from the last row with that id |
| SpanResponse.SpanMapErrorFlag | internal/scenarioDataPersistence/model/response/spanResponse.go:49 | the entry's error flag is that of the last row with the id: set exactly when its workload list is non-nil |
| SpanRawDataResponse.DecodeRow | internal/scenarioDataPersistence/model/response/spanRawDataResponse.go:24-39 | the request body is decompressed first and its error returned as is; a row succeeds exactly when both bodies decompress, giving the protocol and both texts |
| SpanRawDataResponse.RawDataMapErrorSticks | internal/scenarioDataPersistence/model/response/spanRawDataResponse.go:25-33 | once a prefix of the rows fails, the whole conversion fails with that same error |
| SpanRawDataResponse.ConvertSpanRawDataToSpanRawDataResponse | internal/scenarioDataPersistence/model/response/spanRawDataResponse.go:21-47 | the loop returns the map of decoded rows keyed by span id, or no response and the first decompression error |
| SpanRawDataResponse.RawDataMapFailsFast | internal/scenarioDataPersistence/model/response/spanRawDataResponse.go:23-33 | the conversion fails exactly when some row fails, and then with the error of the first failing row, every earlier row having decoded |
| SpanRawDataResponse.RawDataMapLastWins | internal/scenarioDataPersistence/model/response/spanRawDataResponse.go:41 | on success, the entry under a span id is the decoding of the last row with that id |
| SpanRawDataResponse.RawDataMapKeys | internal/scenarioDataPersistence/model/response/spanRawDataResponse.go:41 | on success, every key is the span id of some row |
| SpanRawDataResponse.EmptyPayloadIsDecompressed | internal/scenarioDataPersistence/model/response/spanRawDataResponse.go:24-27 | an empty request body is still handed to the decompressor, so a decompressor that refuses it fails the conversion |
| IncidentDetailsResponse.GetIncidentDetail | internal/scenarioDataPersistence/model/response/incidentDetailsResponse.go:36-46 | the incident id is the trace id and the displayed fields are copied |
| IncidentDetailsResponse.GetIncidentDetailIgnoresCountAndHash | internal/scenarioDataPersistence/model/response/incidentDetailsResponse.go:36-46 | the row count and issue hash do not affect the detail |
| IncidentDetailsResponse.ConvertIncidentTableDtoToIncidentDetailListResponse | internal/scenarioDataPersistence/model/response/incidentDetailsResponse.go:23-34 | a non-nil list with one detail per row in order; the total is the first row's window count, or 0 for no rows |
| ExceptionDataResponse.DecodeErrorData | internal/scenarioDataPersistence/model/response/ExceptionDataResponse.go:25-33 | an empty body gives "" without calling the decompressor; a non-empty one gives the decompressor's result |
| ExceptionDataResponse.ErrorDetailsList | internal/scenarioDataPersistence/model/response/ExceptionDataResponse.go:24-41 | succeeds exactly when every row decodes, with one entry per row in order (id and text); otherwise fails with the first failing row's error |
| ExceptionDataResponse.ErrorDetailsErrorSticks | internal/scenarioDataPersistence/model/response/ExceptionDataResponse.go:29-32 | once a prefix fails, the whole conversion fails with that error |
| ExceptionDataResponse.ConvertErrorDataToErrorDataResponse | internal/scenarioDataPersistence/model/response/ExceptionDataResponse.go:20-45 | on success a non-nil list of the decoded rows; on failure the zero response (nil list) and the first error |
| ExceptionDataResponse.EmptyBodiesSkipDecompression | internal/scenarioDataPersistence/model/response/ExceptionDataResponse.go:27 | when every body is empty the decompressor is never consulted: the result is a list of ids with "" text, whatever the decompressor |
| IssueDetailsResponse.FirstFive | internal/scenarioDataPersistence/model/response/issueDetailsResponse.go:74-90 | the first min(len, 5) elements, in order; a nil list stays nil |
| IssueDetailsResponse.FirstFiveIdempotent | internal/scenarioDataPersistence/model/response/issueDetailsResponse.go:74-90 | cutting twice is cutting once, and a list of at most five is kept as it is |
| IssueDetailsResponse.ConvertIncidentTableDtoToIncidentListResponse | internal/scenarioDataPersistence/model/response/issueDetailsResponse.go:15-22 | a non-nil list of the rows' trace ids, one per row, in order |
| IssueDetailsResponse.ConvertIssueDetailsDtoToIssueDetails | internal/scenarioDataPersistence/model/response/issueDetailsResponse.go:60-93 | the identifying fields, count and sightings are copied; the velocity is the truncated count per hour; incidents, sources and destinations each keep exactly their first min(n, 5) entries, and a list is nil exactly when the stored one is |
| IssueDetailsResponse.IssueDetailsSamples | internal/scenarioDataPersistence/model/response/issueDetailsResponse.go:74-90 | a list of at most five is kept whole (nil included) and a longer one keeps exactly its first five, for each of incidents, sources and destinations |
| IssueDetailsResponse.ConvertIssueListDetailsDtoToIssueListDetailsResponse | internal/scenarioDataPersistence/model/response/issueDetailsResponse.go:42-54 | a non-nil list with each row converted, in order |
| MetadataMapResponse.RemoveLastTwoStrings | internal/scenarioDataPersistence/model/response/metadataMapResponse.go:27-35 | a name with at most one dash is returned unchanged |
| MetadataMapResponse.SplitJoinAt | internal/scenarioDataPersistence/model/response/metadataMapResponse.go:28-34 | cutting the dash-separated pieces after the m-th: the input is the join of the first m pieces, a dash, and the join of the rest, and each side keeps its own dashes |
| MetadataMapResponse.RemoveLastTwoStringsCuts | internal/scenarioDataPersistence/model/response/metadataMapResponse.go:27-35 | a name with at least two dashes loses exactly its last two dash-separated segments: the result is a prefix, followed in the input by a dash and a tail with one dash, and it has two dashes fewer |
| MetadataMapResponse.RemoveLastTwoStringsPrefix | internal/scenarioDataPersistence/model/response/metadataMapResponse.go:27-35 | the result is always a prefix of the input |
| MetadataMapResponse.RemoveLastTwoStringsExamples | internal/scenarioDataPersistence/model/response/metadataMapResponse.go:27-35 | "api-7d-x2" becomes "api"; "my-svc" and "" are kept |
| MetadataMapResponse.TrimEndpoints | internal/scenarioDataPersistence/model/response/metadataMapResponse.go:15-20 | both endpoint names are trimmed; the trace count and protocol list are copied |
| MetadataMapResponse.MetadataMapList | internal/scenarioDataPersistence/model/response/metadataMapResponse.go:13-22 | one trimmed entry per row, in order; the list stays nil for no rows (it is declared, not made) |
| MetadataMapResponse.ConvertMetadataMapToMetadataMapResponse | internal/scenarioDataPersistence/model/response/metadataMapResponse.go:12-25 | the response holds exactly the trimmed list, nil for no rows |
| MetadataMapResponse.ListIsMetadataMapList | internal/scenarioDataPersistence/model/response/metadataMapResponse.go:13-22 | any list of the right length, nil exactly for no rows and trimmed entry by entry, is the response list |
| GoSlices.AppendEach | internal/scenarioDataPersistence/model/response/metadataMapResponse.go:13-22 | appending f of each element to a nil slice gives one element per input, in order, and stays nil for no input |
| TraceRepo.Database.constructor | internal/scenarioDataPersistence/repository/tracePersistenceRepo.go:34-40 | a new database handle has issued no query and closed no cursor |
| TraceRepo.Database.GetAll | internal/scenarioDataPersistence/repository/tracePersistenceRepo.go:53 | issuing a query appends it to the log, closes nothing, and returns the database's answer to it |
| TraceRepo.Database.CloseRows | internal/scenarioDataPersistence/repository/tracePersistenceRepo.go:54 | the deferred close counts one close and issues nothing |
| TraceRepo.Records | internal/scenarioDataPersistence/repository/tracePersistenceRepo.go:62-73 | the scanned records of the cursor, one per row, in order |
| TraceRepo.IssueListQuery | internal/scenarioDataPersistence/repository/tracePersistenceRepo.go:42-51 | a nil or empty service list selects the template without the service filter and binds limit then offset; otherwise the filtered template binds the list twice, then limit and offset; the query is well formed either way |
| TraceRepo.IssueListQueryNilOrEmpty | internal/scenarioDataPersistence/repository/tracePersistenceRepo.go:45 | a nil and an empty service list give the same query, which binds only limit and offset |
| TraceRepo.IssueDetailsQuery | internal/scenarioDataPersistence/repository/tracePersistenceRepo.go:80 | the by-hash template bound to the issue hash |
| TraceRepo.TracesQuery | internal/scenarioDataPersistence/repository/tracePersistenceRepo.go:104 | the trace template bound to issue hash, limit and offset, in that order |
| TraceRepo.SpansQuery | internal/scenarioDataPersistence/repository/tracePersistenceRepo.go:126-135 | an empty span id selects the paged by-trace template (trace id, limit, offset); otherwise the by-span template bound to trace and span id only |
| TraceRepo.SpansQueryIgnoresPagination | internal/scenarioDataPersistence/repository/tracePersistenceRepo.go:133-134 | with a span id, limit and offset do not affect the query |
| TraceRepo.SpanRawDataQuery | internal/scenarioDataPersistence/repository/tracePersistenceRepo.go:162 | the raw-data template bound to trace id and span id |
| TraceRepo.WithVelocities | internal/scenarioDataPersistence/repository/tracePersistenceRepo.go:70-72 | each row is kept, in order, with its velocity set from its own count and sightings |
| TraceRepo.FirstFailure | internal/scenarioDataPersistence/repository/tracePersistenceRepo.go:146-152 | the index of the first row that fails to scan, or none exactly when every row scans |
| TraceRepo.FirstFailureIsUnique | internal/scenarioDataPersistence/repository/tracePersistenceRepo.go:146-152 | a failing row preceded only by scanned rows is the first failure |
| TraceRepo.StampTraceId | internal/scenarioDataPersistence/repository/tracePersistenceRepo.go:154 | every span row, in order, with its trace id replaced by the requested one |
| TraceRepo.CollectIssues | internal/scenarioDataPersistence/repository/tracePersistenceRepo.go:61-73 | the issue loop returns a non-nil list of every row, scan errors included, each with its velocity set |
| TraceRepo.CollectAll | internal/scenarioDataPersistence/repository/tracePersistenceRepo.go:112-121 | the loop of the trace and raw-data methods returns every row's record, in order, in a list that stays nil for no rows |
| TraceRepo.CollectSpans | internal/scenarioDataPersistence/repository/tracePersistenceRepo.go:145-158 | the span loop returns the stamped rows, or stops at the first scan error and returns it with no data |
| TraceRepo.IssueListDetailsRepo | internal/scenarioDataPersistence/repository/tracePersistenceRepo.go:42-77 | issues exactly the chosen query, closes the cursor once on every path, and returns the database error (or nil data for a nil cursor) or every row with its velocity |
| TraceRepo.GetIssueDetails | internal/scenarioDataPersistence/repository/tracePersistenceRepo.go:79-101 | issues the by-hash query, closes once, and returns the error or every row with its velocity |
| TraceRepo.GetTraces | internal/scenarioDataPersistence/repository/tracePersistenceRepo.go:103-124 | issues the trace query, closes once, and returns the error or every scanned row (scan errors only logged) |
| TraceRepo.GetSpans | internal/scenarioDataPersistence/repository/tracePersistenceRepo.go:126-159 | issues the chosen span query, closes once, and returns the error, the first scan error, or every row stamped with the trace id |
| TraceRepo.GetSpanRawData | internal/scenarioDataPersistence/repository/tracePersistenceRepo.go:161-181 | issues the raw-data query, closes once, and returns the error or every scanned row |
| TraceRepo.FailedExecutionPassesThrough | internal/scenarioDataPersistence/repository/tracePersistenceRepo.go:55-59 | when the query fails or yields a nil cursor, every method returns nil data and the database's error (nil when only the cursor is nil) |
| TraceRepo.IssuesKeepEveryRow | internal/scenarioDataPersistence/repository/tracePersistenceRepo.go:61-75 | on a usable cursor the issue methods return no error and a non-nil list with one entry per row, hashes in row order |
| TraceRepo.IssueVelocitiesBounded | internal/scenarioDataPersistence/repository/tracePersistenceRepo.go:70-71 | for rows whose first sighting precedes the last and whose count is non-negative, the divisor is at least 1 and each velocity lies between 0 and the count |
| TraceRepo.AllRowsKeepEveryRow | internal/scenarioDataPersistence/repository/tracePersistenceRepo.go:112-123 | on a usable cursor the trace and raw-data methods return no error and every record in order, nil for no rows |
| TraceRepo.SpansAbortOnFirstFailure | internal/scenarioDataPersistence/repository/tracePersistenceRepo.go:148-152 | the span method fails exactly when some row fails to scan, and then returns nil data and the first failing row's error |
| TraceRepo.SpansStampEveryRow | internal/scenarioDataPersistence/repository/tracePersistenceRepo.go:145-158 | when every row scans, the span method returns every row, in order, stamped with the requested trace id |
| TraceService.GetIncidentData | internal/scenarioDataPersistence/service/tracePersistenceService.go:31-49 | a negative offset or a limit below 1 gives the bad-request error and the zero response; otherwise a repository error gives the DB error, and success passes the repository's incident list through |
| TraceService.GetTraces | internal/scenarioDataPersistence/service/tracePersistenceService.go:51-68 | the same paging guard; on success a non-nil list of the scenario rows' trace ids; a repository error gives the DB error |
| TraceService.GetTracesMetadata | internal/scenarioDataPersistence/service/tracePersistenceService.go:70-88 | the same paging guard; on success the converted spans; a repository error gives the DB error |
| TraceService.GetTracesRawData | internal/scenarioDataPersistence/service/tracePersistenceService.go:90-111 | offset < 0, limit < 1 or limit > 100 is rejected with the bad-request error and its message; on success the decoded raw-data map; a repository error gives the DB error |
| TraceService.GetMetadataMap | internal/scenarioDataPersistence/service/tracePersistenceService.go:113-135 | an invalid duration is rejected first, with its message, then the paging guard; the repository is asked for the fixed "st" window; on success the trimmed map list; a repository error gives the DB error |
| TraceService.PagingBoundaries | internal/scenarioDataPersistence/service/tracePersistenceService.go:94 | compared with the guard at line 33: limit 1 passes both guards; the raw-data guard admits limits 1 to 100 only and is the stricter of the two |
| TraceService.RejectedPageIgnoresRepository | internal/scenarioDataPersistence/service/tracePersistenceService.go:33-36 | a rejected page never depends on the repository's answer |
| TraceService.MetadataMapIgnoresDuration | internal/scenarioDataPersistence/service/tracePersistenceService.go:113-124 | any two valid durations give the same result: the duration is checked but never used |
| TraceUtils.CollectPodNames | internal/prometheus/handler/traceUtils.go:16-25 | as written, the set holds every non-empty source and, when some destination is empty, the empty name; nothing else |
| TraceUtils.TwoPartsIffOneSlash | internal/prometheus/handler/traceUtils.go:28-29 | a name splits into exactly two parts exactly when it holds one "/" |
| TraceUtils.EmptyNameIsNotTwoParts | internal/prometheus/handler/traceUtils.go:28-29 | the empty name is one piece, so it is always skipped |
| TraceUtils.SplitNamespacedPod | internal/prometheus/handler/traceUtils.go:28-33 | "ns/pod" with slash-free parts splits into namespace and pod |
| TraceUtils.PodsAndNamespaces | internal/prometheus/handler/traceUtils.go:26-34 | both lists have one entry per two-part name, each name once, the pod part with ".*" and the namespace at the same position; both stay nil exactly when no name qualifies |
| TraceUtils.ListedSkip | internal/prometheus/handler/traceUtils.go:29-31 | a name that does not split in two is skipped and leaves both lists as they are |
| TraceUtils.ListedAdd | internal/prometheus/handler/traceUtils.go:32-33 | a new two-part name appends its pod part with ".*" and its namespace at the same position |
| TraceUtils.GetPodsAndNSListFromTrace | internal/prometheus/handler/traceUtils.go:10-36 | a span-query error is returned with nil lists; otherwise the names listed are exactly the two-part sources of the trace |
| TraceUtils.IntendedPodNames | internal/prometheus/handler/traceUtils.go:16-25 | the corrected set: every non-empty source and every non-empty destination |
| TraceUtils.CollectPodNamesIntended | internal/prometheus/handler/traceUtils.go:16-25 | the loop with the destination test corrected collects exactly the corrected set |
| TraceUtils.GetPodsAndNSListFromTraceIntended | internal/prometheus/handler/traceUtils.go:10-36 | with the corrected loop, the lists name each two-part source and destination once, pod and namespace aligned |
| TraceUtils.IntendedListsDestinations | internal/prometheus/handler/traceUtils.go:22-23 | with the corrected set, every two-part destination is listed |
| TraceUtils.AsWrittenDropsDestination | internal/prometheus/handler/traceUtils.go:22-23 | as written, a trace whose only span goes from an unnamed source to "ns/pod" lists nothing |
| HandlerUtils.ArrayToPromList | internal/prometheus/handler/handlerUtils.go:45-47 | the names joined with a bar, at most one bar trimmed from each end, then white space trimmed: never longer than the plain join, and a non-empty result neither starts nor ends with white space |
| HandlerUtils.JoinEdges | internal/prometheus/handler/handlerUtils.go:46 | a join starts with its first part and ends with its last |
| HandlerUtils.ArrayToPromListEmpty | internal/prometheus/handler/handlerUtils.go:45-47 | no names give the empty alternation |
| HandlerUtils.ArrayToPromListPlainJoin | internal/prometheus/handler/handlerUtils.go:45-47 | when the first name does not start, and the last does not end, with a bar or white space, the result is the plain bar-separated join of every name in order |
| HandlerUtils.ArrayToPromListTrailingEmpty | internal/prometheus/handler/handlerUtils.go:46 | a trailing empty name disappears with the trailing bar: ["a", ""] gives "a" |
| HandlerUtils.ArrayToPromListOneSeparatorPerEnd | internal/prometheus/handler/handlerUtils.go:46 | only one bar is removed at each end, so two trailing empty names leave one bar after "a" |
| ResponseUtils.ContainerOf | internal/prometheus/model/response/responseUtils.go:22 | the "container" label, or "" when the series has none |
| ResponseUtils.Plot | internal/prometheus/model/response/responseUtils.go:10-19 | one value and one timestamp per sample, in order; both nil for a series without samples |
| ResponseUtils.CopySamples | internal/prometheus/model/response/responseUtils.go:13-19 | the sample loop builds exactly the plot of the series |
| ResponseUtils.UsageKeys | internal/prometheus/model/response/responseUtils.go:5-27 | a container is a key of the usage map exactly when some series names it (a series without the label counts as "") |
| ResponseUtils.LastNaming | internal/prometheus/model/response/responseUtils.go:21 | the position of the last series naming the container, or -1 when none does |
| ResponseUtils.UsageLastWins | internal/prometheus/model/response/responseUtils.go:21 | a container's plot is that of the last series naming it |
| ResponseUtils.UsageSize | internal/prometheus/model/response/responseUtils.go:5-27 | the map has at most one entry per series |
| ResponseUtils.ConvertMetricToPodUsage | internal/prometheus/model/response/responseUtils.go:5-27 | the loop builds the usage map, a non-nil empty map for no series |
| PodDetailResponse.FrameOf | internal/prometheus/model/response/podDetailResponse.go:80-99 | a frame is named after the series' container |
| PodDetailResponse.CopyLabels | internal/prometheus/model/response/podDetailResponse.go:84-88 | the label loop copies the label set exactly |
| PodDetailResponse.SeriesFrame | internal/prometheus/model/response/podDetailResponse.go:71-103 | one series gives its frame, kept exactly when its container name is non-empty |
| PodDetailResponse.KeptFrames | internal/prometheus/model/response/podDetailResponse.go:65-109 | at most one frame per series, each naming a container |
| PodDetailResponse.KeptPositions | internal/prometheus/model/response/podDetailResponse.go:90-94 | at most one kept position per series |
| PodDetailResponse.KeptPositionsIncreasing | internal/prometheus/model/response/podDetailResponse.go:65-109 | the kept positions are valid, strictly increasing, and each names a container |
| PodDetailResponse.KeptPositionsCover | internal/prometheus/model/response/podDetailResponse.go:90-101 | every series with a container name is kept |
| PodDetailResponse.KeptFramesAtPositions | internal/prometheus/model/response/podDetailResponse.go:65-109 | the frames are those of the kept series, one for one, in matrix order |
| PodDetailResponse.ConvertMetricToPodUsage | internal/prometheus/model/response/podDetailResponse.go:65-109 | the title is passed through and success is set; the frames are the kept frames, nil exactly when none is kept |
| PodDetailResponse.AllNamedAllKept | internal/prometheus/model/response/podDetailResponse.go:94-100 | when every series names a container, every series gives a frame, in order |
| PodDetailResponse.NoneNamedNoFrames | internal/prometheus/model/response/podDetailResponse.go:94-100 | when no series names a container there are no frames |
| PodDetailResponse.AtLeastIndex | internal/prometheus/model/response/podDetailResponse.go:94-100 | in a strictly increasing list of positions each is at least its index |
| PodDetailResponse.KeptIsIdentity | internal/prometheus/model/response/podDetailResponse.go:94-100 | a strictly increasing list of positions below n holding all of them is 0 … n-1 |
| AlertTimeSeries.Scan | internal/prometheus/model/response/alertTimeSeriesResponse.go:61-77 | the loop's variables after a non-empty prefix: the open range ends at the prefix's last timestamp, there are fewer closed ranges than samples, and the first range (closed or still open) starts at the first timestamp |
| AlertTimeSeries.Series | internal/prometheus/model/response/alertTimeSeriesResponse.go:61-81 | the closed ranges plus the final open one: no more ranges than samples, and no ranges exactly when there are no samples |
| AlertTimeSeries.Keys | internal/prometheus/model/response/alertTimeSeriesResponse.go:58 | one key per sample, the timestamp truncated toward zero |
| AlertTimeSeries.Starts | internal/prometheus/model/response/alertTimeSeriesResponse.go:63-77 | the positions where a run starts: position 0 first, then strictly increasing positions inside the samples |
| AlertTimeSeries.StartsAreBreaks | internal/prometheus/model/response/alertTimeSeriesResponse.go:69-75 | a later position starts a run exactly when its gap to the previous timestamp is not the step |
| AlertTimeSeries.Bounds | internal/prometheus/model/response/alertTimeSeriesResponse.go:63-79 | the run starts followed by the end: 0 first, the sample count last, strictly increasing |
| AlertTimeSeries.RangesOf | internal/prometheus/model/response/alertTimeSeriesResponse.go:72-79 | one range per pair of consecutive bounds |
| AlertTimeSeries.RangesOfPrefix | internal/prometheus/model/response/alertTimeSeriesResponse.go:63-77 | the ranges of bounds within a prefix of the samples are read off that prefix alone |
| AlertTimeSeries.RangesOfAppend | internal/prometheus/model/response/alertTimeSeriesResponse.go:72 | closing a run adds exactly the range from its first to its last timestamp |
| AlertTimeSeries.SeriesIsRanges | internal/prometheus/model/response/alertTimeSeriesResponse.go:49-82 | the scan's result is the list of ranges between consecutive bounds |
| AlertTimeSeries.ScanMatchesAll | internal/prometheus/model/response/alertTimeSeriesResponse.go:63-77 | at every prefix the scan's closed ranges, open start and open end match the run bounds of that prefix |
| AlertTimeSeries.ScanExtends | internal/prometheus/model/response/alertTimeSeriesResponse.go:69-70 | a sample one step after the open end extends the open run |
| AlertTimeSeries.ScanBreaks | internal/prometheus/model/response/alertTimeSeriesResponse.go:71-74 | any other sample closes the open run and opens a new one at itself |
| AlertTimeSeries.ScanStep | internal/prometheus/model/response/alertTimeSeriesResponse.go:63-77 | the loop's recurrence: the state after one more sample, in both branches |
| AlertTimeSeries.SeriesRuns | internal/prometheus/model/response/alertTimeSeriesResponse.go:49-82 | one range per run, from the run's first timestamp to its last |
| AlertTimeSeries.SeriesWithinRun | internal/prometheus/model/response/alertTimeSeriesResponse.go:69-70 | inside a run every consecutive pair is exactly one step apart |
| AlertTimeSeries.NotABound | internal/prometheus/model/response/alertTimeSeriesResponse.go:63-77 | a position strictly between two consecutive bounds is no bound |
| AlertTimeSeries.StrictlyIncreasing | internal/prometheus/model/response/alertTimeSeriesResponse.go:63-77 | consecutive increase gives increase between any two positions |
| AlertTimeSeries.SeriesSpan | internal/prometheus/model/response/alertTimeSeriesResponse.go:49-82 | a non-empty input gives at least one range; the first starts at the first timestamp and the last ends at the last |
| AlertTimeSeries.BoundIsBreak | internal/prometheus/model/response/alertTimeSeriesResponse.go:69-74 | each inner bound is a sample whose gap to its predecessor is not the step |
| AlertTimeSeries.SeriesOrdered | internal/prometheus/model/response/alertTimeSeriesResponse.go:49-82 | on sorted timestamps each range has from ≤ to, the ranges are in order, and two neighbouring ranges are never exactly one step apart (runs are maximal) |
| AlertTimeSeries.Swap | internal/prometheus/model/response/alertTimeSeriesResponse.go:57-59 | exchanges two elements and nothing else |
| AlertTimeSeries.InsertAt | internal/prometheus/model/response/alertTimeSeriesResponse.go:57-59 | moves sample i into the sorted prefix before it: afterwards the first i+1 samples are sorted and a permutation of the first i+1 before, and the samples after i are unchanged |
| AlertTimeSeries.SiftDown | internal/prometheus/model/response/alertTimeSeriesResponse.go:57-59 | moving the inserted sample down to its place leaves the first i+1 samples sorted, a permutation of the original prefix, and the rest unchanged |
| AlertTimeSeries.MoveDown | internal/prometheus/model/response/alertTimeSeriesResponse.go:57-59 | one swap of an out-of-order neighbour keeps the insertion invariant with the gap one place lower |
| AlertTimeSeries.InsertingInit | internal/prometheus/model/response/alertTimeSeriesResponse.go:57-59 | a sorted prefix of i samples satisfies the insertion invariant for sample i |
| AlertTimeSeries.InsertingStep | internal/prometheus/model/response/alertTimeSeriesResponse.go:57-59 | swapping the gap sample with a larger left neighbour preserves the insertion invariant |
| AlertTimeSeries.InsertingDone | internal/prometheus/model/response/alertTimeSeriesResponse.go:57-59 | once the left neighbour is not larger, the prefix is sorted and a permutation of the original prefix |
| AlertTimeSeries.SwapInPrefix | internal/prometheus/model/response/alertTimeSeriesResponse.go:57-59 | swapping two positions inside a prefix keeps that prefix's multiset |
| AlertTimeSeries.SortByKey | internal/prometheus/model/response/alertTimeSeriesResponse.go:57-59 | the samples end sorted by truncated timestamp and are a permutation of the input |
| AlertTimeSeries.FindSeries | internal/prometheus/model/response/alertTimeSeriesResponse.go:49-82 | an empty input gives a nil result; otherwise the samples are sorted in place (a permutation) and the result is the ranges of the sorted keys |
| AlertTimeSeries.ScanRanges | internal/prometheus/model/response/alertTimeSeriesResponse.go:61-81 | the scanning loop computes exactly the ranges of the keys |
| AlertTimeSeries.FindSeriesResult | internal/prometheus/model/response/alertTimeSeriesResponse.go:49-82 | after sorting, the ranges start at the smallest key and end at the largest |
| AlertTimeSeries.FindSeriesOf | internal/prometheus/model/response/alertTimeSeriesResponse.go:92 | sorting one result's samples leaves every other result's samples untouched |
| AlertTimeSeries.ConvertAlertRangePrometheusResponseToAlertTimeSeriesResponse | internal/prometheus/model/response/alertTimeSeriesResponse.go:84-96 | the result type is copied and the list is non-nil with one entry per result, in order: its metric and the ranges of its samples, which are left sorted |
| PromService.VisibleLabels | internal/prometheus/service/prometheusService.go:635-640 | a label is kept exactly when its name does not start with "__", with its value |
| PromService.DropInternalLabels | internal/prometheus/service/prometheusService.go:634-640 | the label loop builds exactly the visible labels |
| PromService.ExtractMetricAttributes | internal/prometheus/service/prometheusService.go:631-644 | a non-nil list with the visible labels of each sample, one per sample, in order |
| PromService.AddPairs | internal/prometheus/service/prometheusService.go:599-604 | adding one attribute map keeps the old keys and adds its own |
| PromService.UniqueValuesSound | internal/prometheus/service/prometheusService.go:596-607 | a key is present exactly when some attribute map has it, and its set holds exactly the values it takes in those maps |
| PromService.AddAttribute | internal/prometheus/service/prometheusService.go:599-604 | the inner loop adds each pair of one attribute map to the value sets |
| PromService.AddOneKey | internal/prometheus/service/prometheusService.go:599-604 | adding one pair keeps the inner loop's invariant with one key fewer to go |
| PromService.SameMap | internal/prometheus/service/prometheusService.go:599-604 | two maps with the same keys and values are equal |
| PromService.GetUniqueValuesOfAttributes | internal/prometheus/service/prometheusService.go:596-607 | the loops compute the per-key value sets of all the attribute maps |
| PromService.AttributeCounts | internal/prometheus/service/prometheusService.go:292-295 | one count per attribute name |
| PromService.AttributeCountsBounded | internal/prometheus/service/prometheusService.go:291-295 | each attribute's count of distinct values is between 1 and the number of samples |
| PromService.ValueSetBounded | internal/prometheus/service/prometheusService.go:596-607 | a key never has more distinct values than there are attribute maps |
| PromService.GetPrometheusApiResponse | internal/prometheus/service/prometheusService.go:566-594 | an empty URL is refused with the empty-URL error before any request; a transport error is wrapped as an internal-server error; otherwise the response is returned |
| PromService.HasKubeletLabel | internal/prometheus/service/prometheusService.go:249-254 | the label loop finds a label starting with "kubelet_" exactly when one exists |
| PromService.IsIntegrationMetricServer | internal/prometheus/service/prometheusService.go:227-257 | a request error is returned as is; a status other than 200 is reported in the response with error set and no Go error; a body read error is returned; otherwise status code and status stay unset and the server is a metric server exactly when the label list, as far as the decoder filled it, includes a "kubelet_" label; the decode error itself is ignored |
| PromService.GetConnectionStatus | internal/prometheus/service/prometheusService.go:474-519 | success exactly for a 200 answer whose body reads and decodes with status "success"; a transport error, a non-200 status, an unreadable or undecodable body and an "error" status each give their message; any other status gives an internal-server error |
| PromService.ConnectionStatusFromBody | internal/prometheus/service/prometheusService.go:508-518 | "success" gives the success message, "error" the server's message, any other status an internal-server error with an empty message |
| PromService.GetIntegrationDetails | internal/prometheus/service/prometheusService.go:552-560 | the stored integration (or nil), with the not-found error exactly when it is missing or has an empty id |
| PromService.GetPromIntegrationById | internal/prometheus/service/prometheusService.go:82-100 | a client is returned only for a stored, enabled, undeleted Prometheus integration: the cached one if any, else one built from its URL (nil when building fails) |
| PromService.PromIntegrationAcceptedIffSelected | internal/prometheus/service/prometheusService.go:84-87 | when building a client always succeeds, a client comes back exactly for a stored, enabled, undeleted Prometheus integration |
| PromService.GroupSnoc | internal/prometheus/service/prometheusService.go:394-399 | one more alert writes its ranges under its name and state, creating the inner map if needed |
| PromService.GroupLastWins | internal/prometheus/service/prometheusService.go:393-399 | an alert name (and a state under it) is present exactly when some alert has it, and the ranges kept are those of the last alert with that name and state |
| PromService.GroupAlerts | internal/prometheus/service/prometheusService.go:391-399 | the grouping loop sorts each alert's samples (a permutation) and records the ranges of each alert under its name and state, a later alert replacing an earlier one |
| PromService.SeriesOfMatches | internal/prometheus/service/prometheusService.go:405-410 | the series of one name list each state once, with its ranges, and stay nil exactly when there is no state |
| PromService.StateSeries | internal/prometheus/service/prometheusService.go:405-410 | the inner loop builds the series of the states in the given order |
| PromService.FlattenAlerts | internal/prometheus/service/prometheusService.go:402-412 | the outer loop lists each alert name once, with the series of its states; the list stays nil exactly when there is no alert |
| PromService.FlattenedAll | internal/prometheus/service/prometheusService.go:402-412 | the loop's final state gives the flattening's five properties |
| PromService.FlattenedStep | internal/prometheus/service/prometheusService.go:403-411 | one more name keeps the loop's invariant |
| PromService.NamesListed | internal/prometheus/service/prometheusService.go:402-412 | a list that follows an enumeration of the names holds each name exactly once |
| PromService.GroupAlertRanges | internal/prometheus/service/prometheusService.go:391-414 | the step is parsed with its error ignored (0 on a syntax error, the int64 bound on a range error); each alert's samples are sorted; the result lists each alert name once with the series of the last ranges per state, and is nil exactly when there are no alerts; the alert names and each alert's states come in map orders given as inputs, one per map |
| PromService.GroupEmpty | internal/prometheus/service/prometheusService.go:393-399 | the grouping is empty exactly when there are no alerts |

## Left out

- SQL text, the database driver and row scanning. A template is an opaque tag that carries its placeholder count. A row arrives either scanned or with a scan error, and the record it holds is whatever the scan left in it.
- IntegrationsDto.Equals: its own contract states only that a record equals itself, because a full contract would repeat its one-line body; the ids-only comparison is proved separately in EqualsIffSameId.
- `SpanRawDataResponse` error replies: Go returns the zero response, whose map is nil and serialises as `null`. Dafny has no nil map, so the model returns an empty map and does not tell `null` from `{}`.
- HTTP requests, reading response bodies and JSON decoding. Each function receives the outcome of these calls as a parameter. This includes the `GET`, `getResponseBody` and `readResponseBody`. `PromService.IsIntegrationMetricServer` receives the label list as the decoder left it, partial or not, because the source ignores that decode error.
- Basic-auth credentials are not modelled. They are only forwarded to the HTTP call.
- gzip decompression (section 2.3 of RFC 1952) is a function parameter from bytes to text or an error.
- Logging, including the `println` calls in the pod-detail converter, is not modelled.
- Float values that are only copied (sample values, latencies) are kept as their IEEE 754 bit patterns. No floating-point arithmetic is modelled.
- ScenarioDto.Velocity: the velocity is kept as the integer quotient. The conversion to float32 is not modelled; it is exact for quotients below 2^24.
- TimeUtils.HoursBetween: counts whole hours exactly. Go goes through the float64 `Duration.Hours()`, which adds the hour count and the fraction of an hour as float64 values. From 4096 hours (about 170 days) on, the rounding step of that sum exceeds twice the gap to the next hour when the remainder is within about 2 ns of a full hour, and Go then reports one hour more. Below 4096 hours the two agree.
- TimeUtils.CalendarDaysBetween: states the day count only when the difference of the truncated instants fits in int64. It has the same float64 caveat as `HoursBetween`.
- Go panics are modelled as preconditions:
  - Integer division by zero when the last sighting lies between one and two hours before the first: `ScenarioDto.Velocity`, `IssueDetailsResponse.ConvertIssueDetailsDtoToIssueDetails`, `TraceRepo.IssueListDetailsRepo`, `TraceRepo.GetIssueDetails`.
  - The nil dereference in `GetTracesRawData` when the raw-data converter fails: `TraceService.GetTracesRawData`.
  - The type assertions on a transport error's metadata in `getConnectionStatus`: `PromService.GetConnectionStatus`.
  - The type assertion on the argument of `Equals`, which is typed `Integration` here.
- The repository calls the trace service makes are function parameters: `GetIncidentData`, `GetTraces` over scenario rows, `GetSpan`, a four-argument `GetSpanRawData` and `GetMetadataMap`. So are the span converter `ConvertSpanToSpanResponse` and `utils.IsValidPxlTime`. None of them is part of this model, and they do not match the repository's own interface.
- The span query of `getPodsAndNSListFromTrace` (`GetIncidentDetailsService`) is an input result.
- Go's `sort.Slice` is not stable, and its order among equal timestamps is unspecified. `AlertTimeSeries.SortByKey` is an insertion sort, but its contract states only sortedness and permutation, and the ranges depend only on the sorted keys.
- The built Prometheus client is not stored back into the client cache by `GetPromIntegrationById`, and neither does the model store it. `api.NewClient` is a parameter.
- The other Prometheus service operations, the HTTP handlers, routing, configuration and `main` are not part of this model. These operations only build a request, send it and decode the answer: `GetGenericQueryService`, `GetPodsInfoService`, `MetricsList`, `AlertsList`, `PrometheusAlertWebhook` and `getAlertQuery`.
- The shared status and message constants of utils are declared where they are used. The rest of the utils constants file is not part of this model.
- Both `ConvertMetricToPodUsage` functions are modelled: the map form in `ResponseUtils` and the titled-frame form in `PodDetailResponse`.

## Findings

| source | as written | input that shows it | evidently intended | confidence | as-written member | corrected member |
|---|---|---|---|---|---|---|
| internal/prometheus/handler/traceUtils.go:22-23 | the destination branch tests `== ""`, so the only destination it adds is the empty name, which never splits into two parts | one span with source "" and destination "ns/pod": both lists come back empty | `!= ""`, so that every non-empty destination is collected like the sources and a two-part destination is listed | not executed | TraceUtils.AsWrittenDropsDestination | TraceUtils.GetPodsAndNSListFromTraceIntended |
