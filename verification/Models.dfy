/** models.py and config.py: the vocabulary shared by every layer. Fingerprints and commit shas
    are fixed-width hexadecimal strings, so their order is that of the numbers they write. */
module Models {

  datatype Option<+T> = None | Some(value: T)

  function OrElse<T>(first: Option<T>, second: Option<T>): Option<T> {
    if first.Some? then first else second
  }

  datatype Outcome = Pass | Fail | Error | Skip {
    predicate IsFailure() { Fail? || Error? }
    predicate CountsAsObservation() { !Skip? }
  }

  datatype TestIdentity = TestIdentity(
    fingerprint: nat, suitePath: string, testName: string, parameters: string, filePath: Option<string>)

  datatype IdentityConfig = IdentityConfig(
    aliasMaxDistance: real, aliasCertainDistance: real, maxCompareLength: nat)

  datatype TestCaseResult = TestCaseResult(
    name: string, classname: string, suitePath: string, filePath: Option<string>,
    line: Option<int>, durationMs: Option<int>, outcome: Outcome,
    failureType: Option<string>, failureMessage: Option<string>, stackTrace: Option<string>,
    stdout: Option<string>, stderr: Option<string>, rerunObserved: bool, sourceFile: string)

  datatype RunMetadata = RunMetadata(
    commitSha: nat, runId: string, attempt: nat, branch: Option<string>, shardId: Option<string>,
    workerId: Option<string>, startedAt: int)

  datatype LineRange = LineRange(start: nat, end: nat)

  datatype ChangeType = Added | Modified | Deleted | Renamed

  datatype FileChange = FileChange(
    path: string, changeType: ChangeType, oldPath: Option<string>, binary: bool,
    newRanges: seq<LineRange>, oldRanges: seq<LineRange>)

  datatype CauseCode =
    RaceCondition | TimingDependency | TestOrderDependency | ExternalDependency | SharedStateLeak
    | ResourceExhaustion | InfraFlake | RealRegression | Unknown

  datatype DowngradeReason =
    NotDowngraded | InvalidJson | SchemaInvalid | UnknownCause | BelowConfidenceFloor | NoEvidence
    | ModelAbstained | BudgetExhausted | Prefiltered | ApiError | LlmDisabled | EmptyResponse

  datatype Classification = Classification(
    cause: CauseCode, confidence: real, evidence: seq<string>, abstained: bool,
    downgrade: DowngradeReason, model: string, promptVersion: string)
}
