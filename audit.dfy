/**
 * The audit trail: every event is appended to an in-memory list and to a
 * persisted list that keeps only the newest 100 entries; queries read the
 * persisted list newest first.
 */
module Audit {
  import opened Wrappers
  import Seqs

  datatype AuditAction =
    | Login | Logout | LoginFailed | PasswordChange | ProfileUpdate
    | StudentCreate | StudentUpdate | StudentDelete
    | CoachingSessionCreate | CoachingSessionUpdate | CoachingSessionDelete
    | EvaluationCreate | EvaluationUpdate | FileUpload | FileDelete
    | PermissionChange | RoleChange

  datatype AuditLog = AuditLog(
    userId: string,
    userRole: string,
    action: AuditAction,
    resourceType: Option<string>,
    resourceId: Option<string>,
    details: Option<map<string, string>>,
    timestamp: int,
    success: bool)

  datatype LogOptions = LogOptions(
    resourceType: Option<string>,
    resourceId: Option<string>,
    details: Option<map<string, string>>,
    success: Option<bool>)

  const NoOptions := LogOptions(None, None, None, None)

  const MaxPersisted := 100

  /** The entry `logAuditEvent` builds; `success` defaults to true. */
  function MakeLog(userId: string, userRole: string, action: AuditAction, options: LogOptions, now: int): (log: AuditLog)
    ensures log.userId == userId && log.userRole == userRole && log.action == action
    ensures log.success == (options.success.None? || options.success.value)
  {
    AuditLog(userId, userRole, action, options.resourceType, options.resourceId, options.details, now,
             options.success.GetOr(true))
  }

  /** `list.slice(-100)` after the push: the newest 100 entries, oldest evicted first. */
  function KeepNewest(s: seq<AuditLog>): (r: seq<AuditLog>)
    ensures |r| <= MaxPersisted
    ensures r == Seqs.SliceFrom(s, -MaxPersisted)
  {
    if |s| > MaxPersisted then s[|s| - MaxPersisted..] else s
  }

  /** Appending to a persisted list of at most 100 entries evicts at most the single oldest one. */
  lemma KeepNewestAppend(s: seq<AuditLog>, log: AuditLog)
    requires |s| <= MaxPersisted
    ensures KeepNewest(s + [log]) == if |s| < MaxPersisted then s + [log] else s[1..] + [log]
  {
  }

  class AuditTrail {
    /** The module-level `auditLogs` array. */
    var auditLogs: seq<AuditLog>
    /** The list kept under the storage key `audit_logs`. */
    var persisted: seq<AuditLog>

    constructor (stored: seq<AuditLog>)
      ensures auditLogs == [] && persisted == stored
    {
      auditLogs := [];
      persisted := stored;
    }

    method LogAuditEvent(userId: string, userRole: string, action: AuditAction, options: LogOptions, now: int)
      modifies this
      ensures auditLogs == old(auditLogs) + [MakeLog(userId, userRole, action, options, now)]
      ensures persisted == KeepNewest(old(persisted) + [MakeLog(userId, userRole, action, options, now)])
    {
      var log := MakeLog(userId, userRole, action, options, now);
      auditLogs := auditLogs + [log];
      var storedLogs := persisted + [log];
      persisted := KeepNewest(storedLogs);
    }
  }

  /** The limit the three getters use when the caller passes none. */
  const DefaultLimit := 50

  /** `getAuditLogs(limit = 50)`: `slice(-limit).reverse()` over the persisted list. */
  function GetAuditLogs(persisted: seq<AuditLog>, limitArg: Option<int>): (r: seq<AuditLog>)
    ensures var limit := limitArg.GetOr(DefaultLimit);
            (limit > 0 ==> |r| == (if limit < |persisted| then limit else |persisted|)) &&
            (limit == 0 ==> |r| == |persisted|)
    ensures limitArg.None? ==> |r| == (if |persisted| < DefaultLimit then |persisted| else DefaultLimit)
    ensures |r| <= |persisted|
    ensures forall i | 0 <= i < |r| :: r[i] == persisted[|persisted| - 1 - i]
  {
    Seqs.Reverse(Seqs.SliceFrom(persisted, -limitArg.GetOr(DefaultLimit)))
  }

  /** `getAuditLogsByUser(userId, limit)`: the user's entries among the newest 1000, newest first. */
  function GetAuditLogsByUser(persisted: seq<AuditLog>, userId: string, limitArg: Option<int>): (r: seq<AuditLog>)
    ensures forall i | 0 <= i < |r| :: r[i].userId == userId && r[i] in persisted
    ensures limitArg.None? ==> |r| <= DefaultLimit
    ensures var limit := limitArg.GetOr(DefaultLimit);
            var mine := Seqs.Filter(GetAuditLogs(persisted, Some(1000)), (l: AuditLog) => l.userId == userId);
            limit >= 0 ==> |r| <= limit && r == mine[..if limit < |mine| then limit else |mine|]
  {
    var limit := limitArg.GetOr(DefaultLimit);
    var mine := Seqs.Filter(GetAuditLogs(persisted, Some(1000)), (l: AuditLog) => l.userId == userId);
    Seqs.SlicePrefix(mine, if limit >= 0 then limit else 0);
    Seqs.Slice(mine, 0, limit)
  }

  /** `getAuditLogsByAction(action, limit)`: the action's entries among the newest 1000, newest first. */
  function GetAuditLogsByAction(persisted: seq<AuditLog>, action: AuditAction, limitArg: Option<int>): (r: seq<AuditLog>)
    ensures forall i | 0 <= i < |r| :: r[i].action == action && r[i] in persisted
    ensures limitArg.None? ==> |r| <= DefaultLimit
    ensures var limit := limitArg.GetOr(DefaultLimit);
            var these := Seqs.Filter(GetAuditLogs(persisted, Some(1000)), (l: AuditLog) => l.action == action);
            limit >= 0 ==> |r| <= limit && r == these[..if limit < |these| then limit else |these|]
  {
    var limit := limitArg.GetOr(DefaultLimit);
    var these := Seqs.Filter(GetAuditLogs(persisted, Some(1000)), (l: AuditLog) => l.action == action);
    Seqs.SlicePrefix(these, if limit >= 0 then limit else 0);
    Seqs.Slice(these, 0, limit)
  }

  /** The newest entry comes first: right after logging, `getAuditLogs` starts with it. */
  lemma NewestFirstAfterLog(persisted: seq<AuditLog>, log: AuditLog, limit: Option<int>)
    requires limit.GetOr(DefaultLimit) >= 0
    ensures var r := GetAuditLogs(KeepNewest(persisted + [log]), limit); |r| > 0 && r[0] == log
  {
    var p := KeepNewest(persisted + [log]);
    assert p[|p| - 1] == log;
  }
}
