/**
 The stored half of the secrets engine as a value: the records under `creds/` and the database
 users, and what each handler does to them. Every call into storage or the database is an answer
 read from an `Env`; a handler stops at the first answer that is a failure.
 */
module Vault {
  import opened Common
  import opened Text

  /** The fields of models.Credential that are fixed when the credential is created. */
  datatype Identity = Identity(leaseId: string, username: string, roleName: string, region: string, createdAt: int)

  /** models.Credential. Times and lifetimes share one unit. */
  datatype Record = Record(id: Identity, expiresAt: int, lastRenewed: int)

  /** The part of models.Role that decides anything here. */
  datatype Role = Role(defaultTTL: int, maxTTL: int, maxCredentials: int, batchSize: int)

  datatype State = State(store: map<string, Record>, users: set<string>)

  datatype Error =
    | InvalidName | LoadFailed | NotFound | RoleFailed | RoleMissing | ConfigFailed | CountFailed
    | QuotaExceeded | Preflight | ConnectFailed | CreateFailed | StatementFailed | AlterFailed
    | DropFailed | PutFailed | DeleteFailed | Expired | MaxTTLReached | NothingToRenew | LeaseRequired

  datatype Outcome = Done | Refused(error: Error)

  /**
   The answers of everything outside. `countOk` is for a listing read through to its end;
   `statementOk` also holds when there is no statement to run; `preflightOk` stands for prefix,
   allowed-role, pool-health, template and password checks, none of which touches the state.
   Whether the record a handler is about can be loaded is said apart, as `getOk`.
   */
  datatype Env = Env(
    nameOk: bool, roleOk: bool, configOk: bool, countOk: bool, preflightOk: bool,
    connectOk: bool, createOk: bool, alterOk: bool, statementOk: bool, dropOk: bool,
    putOk: bool, deleteOk: bool)

  const MAX_BATCH: nat := 100

  function LeaseId(roleName: string, username: string): string {
    "teradata/creds/" + roleName + "/" + username
  }

  /** Every record sits under its own username. */
  ghost predicate UnderOwnName(store: map<string, Record>) {
    forall u :: u in store ==> store[u].id.username == u
  }

  /** Every record sits under its own username and carries the lease made from its role and name. */
  ghost predicate WellKeyed(store: map<string, Record>) {
    forall u :: u in store ==> store[u].id.username == u && store[u].id.leaseId == LeaseId(store[u].id.roleName, u)
  }

  /** What the storage layer's List may answer: each stored username once, in some order. */
  ghost predicate Lists(order: seq<string>, store: map<string, Record>) {
    Distinct(order) && forall u :: u in order <==> u in store
  }

  /** The usernames whose record belongs to a role. */
  function Holders(store: map<string, Record>, roleName: string): set<string> {
    set u | u in store && store[u].id.roleName == roleName
  }

  // ----- creation -------------------------------------------------------------------------

  /** The two clock readings of a creation: one for ExpiresAt, a later one for CreatedAt. */
  datatype CreateClock = CreateClock(expiry: int, created: int)

  /** One attempt at a credential: the generated name, the clock and the outside answers. */
  datatype Draw = Draw(username: string, clock: CreateClock, env: Env)

  function NewRecord(roleName: string, role: Role, region: string, d: Draw): Record {
    var id := Identity(LeaseId(roleName, d.username), d.username, roleName, region, d.clock.created);
    Record(id, d.clock.expiry + role.defaultTTL, 0)
  }

  /** The part single and batch creation share, from the generated name to the stored record. */
  function CreateOne(s: State, roleName: string, role: Role, region: string, d: Draw): (State, Outcome) {
    if !d.env.nameOk then (s, Refused(InvalidName))
    else if !d.env.createOk then (s, Refused(CreateFailed))
    else
      var created := s.(users := s.users + {d.username});
      if !d.env.statementOk then
        (if d.env.dropOk then s.(users := s.users - {d.username}) else created, Refused(StatementFailed))
      else if !d.env.putOk then (created, Refused(PutFailed))
      else (created.(store := s.store[d.username := NewRecord(roleName, role, region, d)]), Done)
  }

  /** Why a creation request is turned away before any name is drawn. */
  function CreateRefusal(s: State, roles: map<string, Role>, roleName: string, env: Env): Option<Error> {
    if !env.roleOk then Some(RoleFailed)
    else if roleName !in roles then Some(RoleMissing)
    else if roles[roleName].maxCredentials > 0 && !env.countOk then Some(CountFailed)
    else if roles[roleName].maxCredentials > 0
            && |Holders(s.store, roleName)| >= roles[roleName].maxCredentials then Some(QuotaExceeded)
    else if !env.configOk then Some(ConfigFailed)
    else if !env.preflightOk then Some(Preflight)
    else None
  }

  function Create(s: State, roles: map<string, Role>, roleName: string, region: string, d: Draw): (State, Outcome) {
    match CreateRefusal(s, roles, roleName, d.env)
    case Some(e) => (s, Refused(e))
    case None => CreateOne(s, roleName, roles[roleName], region, d)
  }

  /** The first `k` rounds of the batch loop; a failed round ends it. */
  function CreateFirst(s: State, roleName: string, role: Role, region: string, draws: seq<Draw>, k: nat)
    : (State, Outcome)
    requires k <= |draws|
  {
    if k == 0 then (s, Done)
    else
      var (t, out) := CreateFirst(s, roleName, role, region, draws, k - 1);
      if out.Refused? then (t, out) else CreateOne(t, roleName, role, region, draws[k - 1])
  }

  function Clamp(count: int): nat {
    if count <= 0 then 1 else if count > MAX_BATCH then MAX_BATCH else count
  }

  /** How many credentials a batch tries: the clamped request, cut to what the quota leaves. */
  function BatchSize(s: State, roleName: string, role: Role, count: int): nat
    requires role.maxCredentials > 0 ==> |Holders(s.store, roleName)| < role.maxCredentials
    ensures 1 <= BatchSize(s, roleName, role, count) <= MAX_BATCH
    ensures role.maxCredentials > 0 ==>
              |Holders(s.store, roleName)| + BatchSize(s, roleName, role, count) <= role.maxCredentials
  {
    if role.maxCredentials > 0 && Clamp(count) > role.maxCredentials - |Holders(s.store, roleName)|
    then role.maxCredentials - |Holders(s.store, roleName)|
    else Clamp(count)
  }

  function CreateBatch(s: State, roles: map<string, Role>, roleName: string, region: string, count: int,
                       env: Env, draws: seq<Draw>): (State, Outcome)
    requires |draws| >= MAX_BATCH
  {
    match CreateRefusal(s, roles, roleName, env)
    case Some(e) => (s, Refused(e))
    case None =>
      CreateFirst(s, roleName, roles[roleName], region, draws, BatchSize(s, roleName, roles[roleName], count))
  }

  // ----- renewal and extension ------------------------------------------------------------

  function Renewed(r: Record, ttl: int, now: int): Record {
    r.(lastRenewed := now, expiresAt := now + ttl)
  }

  function Renew(s: State, roles: map<string, Role>, u: string, now: int, getOk: bool, env: Env): (State, Outcome) {
    if !env.nameOk then (s, Refused(InvalidName))
    else if !getOk then (s, Refused(LoadFailed))
    else if u !in s.store then (s, Refused(NotFound))
    else if !env.roleOk then (s, Refused(RoleFailed))
    else if s.store[u].id.roleName !in roles then (s, Refused(RoleMissing))
    else if !env.configOk then (s, Refused(ConfigFailed))
    else if !env.preflightOk then (s, Refused(Preflight))
    else if !env.connectOk then (s, Refused(ConnectFailed))
    else if !env.alterOk then (s, Refused(AlterFailed))
    else if !env.statementOk then (s, Refused(StatementFailed))
    else if !env.putOk then (s, Refused(PutFailed))
    else (s.(store := s.store[u := Renewed(s.store[u], roles[s.store[u].id.roleName].defaultTTL, now)]), Done)
  }

  /** One username of a batch renewal; the lifetime is that of the role the batch names. */
  function RenewItem(s: State, ttl: int, u: string, turn: Turn): (State, Outcome) {
    if !turn.getOk then (s, Refused(LoadFailed))
    else if u !in s.store then (s, Refused(NotFound))
    else if !turn.env.preflightOk then (s, Refused(Preflight))
    else if !turn.env.alterOk then (s, Refused(AlterFailed))
    else if !turn.env.statementOk then (s, Refused(StatementFailed))
    else if !turn.env.putOk then (s, Refused(PutFailed))
    else (s.(store := s.store[u := Renewed(s.store[u], ttl, turn.now)]), Done)
  }

  /** One line of a bulk or batch answer. */
  datatype Result = Result(username: string, outcome: Outcome)

  /** One turn of a loop over usernames: its clock reading, whether record and role load, and the rest. */
  datatype Turn = Turn(now: int, getOk: bool, roleOk: bool, env: Env)

  function RenewFirst(s: State, ttl: int, names: seq<string>, turns: seq<Turn>, k: nat): (State, seq<Result>)
    requires k <= |names| <= |turns|
  {
    if k == 0 then (s, [])
    else
      var (t, rs) := RenewFirst(s, ttl, names, turns, k - 1);
      var (t', out) := RenewItem(t, ttl, names[k - 1], turns[k - 1]);
      (t', rs + [Result(names[k - 1], out)])
  }

  /**
   The listed usernames with a readable record, of one role when one is given, the first `limit`
   of them. A record that cannot be read is passed over.
   */
  function Select(store: map<string, Record>, order: seq<string>, unread: set<string>,
                  role: Option<string>, limit: nat): seq<string> {
    if order == [] then []
    else
      var rest := Select(store, order[..|order| - 1], unread, role, limit);
      var u := order[|order| - 1];
      if |rest| < limit && u in store && u !in unread && (role == None || store[u].id.roleName == role.value)
      then rest + [u]
      else rest
  }

  /** The Username fields of some stored records. */
  function Usernames(store: map<string, Record>, keys: seq<string>): (names: seq<string>)
    requires forall k :: k in keys ==> k in store
    ensures |names| == |keys|
    ensures forall i :: 0 <= i < |keys| ==> names[i] == store[keys[i]].id.username
  {
    seq(|keys|, i requires 0 <= i < |keys| => store[keys[i]].id.username)
  }

  lemma {:induction false} SelectPicks(store: map<string, Record>, order: seq<string>, unread: set<string>,
                                       role: Option<string>, limit: nat)
    ensures var ks := Select(store, order, unread, role, limit);
      && |ks| <= limit
      && (forall k :: k in ks ==> k in order && k in store && k !in unread
                                  && (role == None || store[k].id.roleName == role.value))
      && (|ks| < limit ==>
            forall k :: k in order && k in store && k !in unread && (role == None || store[k].id.roleName == role.value)
                        ==> k in ks)
      && (Distinct(order) ==> Distinct(ks))
  {
    if order == [] {
    } else {
      SelectPicks(store, order[..|order| - 1], unread, role, limit);
      assert order == order[..|order| - 1] + [order[|order| - 1]];
    }
  }

  /** The clock readings of one extension, in the order the handler takes them. */
  datatype ExtendClock = ExtendClock(expiry: int, limit: int, cap: int, renewed: int, end: int)

  function FindLease(store: map<string, Record>, order: seq<string>, leaseId: string): Option<string> {
    if order == [] then None
    else if order[0] in store && store[order[0]].id.leaseId == leaseId then Some(order[0])
    else FindLease(store, order[1..], leaseId)
  }

  /**
   The lifetime an extension grants: the requested or default one, cut to what the role's maximum
   leaves since creation; none once nothing is left. The maximum is looked at twice, each time
   with its own clock reading.
   */
  function GrantedTTL(role: Role, r: Record, requested: int, clock: ExtendClock): Option<int> {
    var ttl := if requested > 0 then requested else role.defaultTTL;
    var left := role.maxTTL - (clock.cap - r.id.createdAt);
    if role.maxTTL <= 0 then Some(ttl)
    else if clock.limit - r.id.createdAt >= role.maxTTL then None
    else if ttl > left then (if left <= 0 then None else Some(left))
    else if ttl <= 0 then None
    else Some(ttl)
  }

  /** The extension of a found record: refused, or the record with its new times. */
  function Extended(roles: map<string, Role>, r: Record, requested: int, clock: ExtendClock, env: Env)
    : (Record, Outcome)
  {
    if !env.roleOk then (r, Refused(RoleFailed))
    else if r.id.roleName !in roles then (r, Refused(RoleMissing))
    else if clock.expiry > r.expiresAt then (r, Refused(Expired))
    else
      match GrantedTTL(roles[r.id.roleName], r, requested, clock)
      case None => (r, Refused(MaxTTLReached))
      case Some(ttl) =>
        if !env.putOk then (r, Refused(PutFailed))
        else (r.(lastRenewed := clock.renewed, expiresAt := clock.end + ttl), Done)
  }

  function Extend(s: State, roles: map<string, Role>, order: seq<string>, leaseId: string, requested: int,
                  clock: ExtendClock, env: Env): (State, Outcome) {
    if leaseId == "" then (s, Refused(LeaseRequired))
    else if !env.countOk then (s, Refused(LoadFailed))
    else match FindLease(s.store, order, leaseId)
      case None => (s, Refused(NotFound))
      case Some(u) =>
        if u !in s.store then (s, Refused(NotFound))
        else
          var (r, out) := Extended(roles, s.store[u], requested, clock, env);
          (if out == Done then s.(store := s.store[u := r]) else s, out)
  }

  // ----- revocation -----------------------------------------------------------------------

  /** Revocation statement, DROP USER, delete of the record: the tail of every revocation. */
  function DropAndForget(s: State, u: string, env: Env): (State, Outcome) {
    if !env.connectOk then (s, Refused(ConnectFailed))
    else if !env.statementOk then (s, Refused(StatementFailed))
    else if !env.dropOk then (s, Refused(DropFailed))
    else if !env.deleteOk then (s.(users := s.users - {u}), Refused(DeleteFailed))
    else (State(s.store - {u}, s.users - {u}), Done)
  }

  function Revoke(s: State, u: string, getOk: bool, env: Env): (State, Outcome) {
    if !env.nameOk then (s, Refused(InvalidName))
    else if !getOk then (s, Refused(LoadFailed))
    else if u !in s.store then (s, Refused(NotFound))
    else if !env.roleOk then (s, Refused(RoleFailed))
    else if !env.configOk then (s, Refused(ConfigFailed))
    else DropAndForget(s, u, env)
  }

  /** The three bulk handlers differ in what they check before a user is dropped. */
  datatype Mode = Named | OneRole | Everyone

  function RevokeItem(mode: Mode, s: State, u: string, turn: Turn): (State, Outcome) {
    match mode
    case Named =>
      if !turn.env.nameOk then (s, Refused(InvalidName))
      else if !turn.getOk then (s, Refused(LoadFailed))
      else if u !in s.store then (s, Refused(NotFound))
      else if !turn.roleOk then (s, Refused(RoleFailed))
      else DropAndForget(s, u, turn.env)
    case OneRole => DropAndForget(s, u, turn.env)
    case Everyone => if !turn.roleOk then (s, Refused(RoleFailed)) else DropAndForget(s, u, turn.env)
  }

  function RevokeFirst(mode: Mode, s: State, names: seq<string>, turns: seq<Turn>, k: nat): (State, seq<Result>)
    requires k <= |names| <= |turns|
  {
    if k == 0 then (s, [])
    else
      var (t, rs) := RevokeFirst(mode, s, names, turns, k - 1);
      var (t', out) := RevokeItem(mode, t, names[k - 1], turns[k - 1]);
      (t', rs + [Result(names[k - 1], out)])
  }

  function Successes(rs: seq<Result>): nat {
    if rs == [] then 0 else Successes(rs[..|rs| - 1]) + if rs[|rs| - 1].outcome == Done then 1 else 0
  }

  function Failures(rs: seq<Result>): nat {
    if rs == [] then 0 else Failures(rs[..|rs| - 1]) + if rs[|rs| - 1].outcome == Done then 0 else 1
  }

  /** One listed username of the expiry cleanup. A record is expired strictly after ExpiresAt. */
  function CleanItem(s: State, u: string, now: int, turn: Turn): (State, nat) {
    if !turn.getOk || u !in s.store || now <= s.store[u].expiresAt || !turn.env.dropOk then (s, 0)
    else if !turn.env.deleteOk then (s.(users := s.users - {u}), 0)
    else (State(s.store - {u}, s.users - {u}), 1)
  }

  function CleanFirst(s: State, order: seq<string>, now: int, turns: seq<Turn>, k: nat): (State, nat)
    requires k <= |order| <= |turns|
  {
    if k == 0 then (s, 0)
    else
      var (t, n) := CleanFirst(s, order, now, turns, k - 1);
      var (t', m) := CleanItem(t, order[k - 1], now, turns[k - 1]);
      (t', n + m)
  }

  // ----- whole handlers over lists --------------------------------------------------------

  /** What a handler over a list answers: an error, or one line per username it worked on. */
  datatype Answer = Failed(error: Error) | Lines(results: seq<Result>)

  function RenewLimit(role: Role, count: int): nat {
    Clamp(if role.batchSize > 0 && count <= 0 then role.batchSize else count)
  }

  /** The usernames a batch renewal works on: the given ones, or those of the role, up to the limit. */
  function RenewTargets(s: State, role: Role, roleName: string, count: int, given: seq<string>,
                        order: seq<string>, unread: set<string>): (names: seq<string>)
    ensures |names| <= MAX_BATCH
  {
    var limit := RenewLimit(role, count);
    if given != [] then (if |given| > limit then given[..limit] else given)
    else
      SelectPicks(s.store, order, unread, Some(roleName), limit);
      Usernames(s.store, Select(s.store, order, unread, Some(roleName), limit))
  }

  /** Why a batch renewal is turned away, once the usernames it would work on are known. */
  function BatchRefusal(
    roles: map<string, Role>, roleName: string, given: seq<string>, names: seq<string>, env: Env): Option<Error>
  {
    if !env.roleOk then Some(RoleFailed)
    else if roleName !in roles then Some(RoleMissing)
    else if !env.configOk then Some(ConfigFailed)
    else if given != [] && !env.nameOk then Some(InvalidName)
    else if given == [] && !env.countOk then Some(CountFailed)
    else if names == [] then Some(NothingToRenew)
    else if !env.connectOk then Some(ConnectFailed)
    else if !env.preflightOk then Some(Preflight)
    else None
  }

  /** The usernames of a batch renewal; none for a role that is not there. */
  function BatchTargets(
    s: State, roles: map<string, Role>, roleName: string, count: int, given: seq<string>, order: seq<string>,
    unread: set<string>): (names: seq<string>)
    ensures |names| <= MAX_BATCH
  {
    if roleName in roles then RenewTargets(s, roles[roleName], roleName, count, given, order, unread) else []
  }

  function RenewBatch(
    s: State, roles: map<string, Role>, roleName: string, count: int, given: seq<string>, order: seq<string>,
    unread: set<string>, env: Env, turns: seq<Turn>): (State, Answer)
    requires |turns| >= MAX_BATCH
  {
    var names := BatchTargets(s, roles, roleName, count, given, order, unread);
    match BatchRefusal(roles, roleName, given, names, env)
    case Some(e) => (s, Failed(e))
    case None =>
      var (t, rs) := RenewFirst(s, roles[roleName].defaultTTL, names, turns, |names|);
      (t, Lines(rs))
  }

  function RevokeAllOf(mode: Mode, s: State, names: seq<string>, turns: seq<Turn>): (State, Answer)
    requires |names| <= |turns|
  {
    var (t, rs) := RevokeFirst(mode, s, names, turns, |names|);
    (t, Lines(rs))
  }

  function BulkRevoke(s: State, names: seq<string>, env: Env, turns: seq<Turn>): (State, Answer)
    requires |names| <= |turns|
  {
    if names == [] then (s, Failed(InvalidName))
    else if !env.configOk then (s, Failed(ConfigFailed))
    else RevokeAllOf(Named, s, names, turns)
  }

  function RevokeByRole(s: State, roles: map<string, Role>, roleName: string, order: seq<string>,
                        unread: set<string>, env: Env, turns: seq<Turn>): (State, Answer)
    requires |order| <= |turns|
  {
    if roleName == "" then (s, Failed(RoleMissing))
    else if !env.configOk then (s, Failed(ConfigFailed))
    else if !env.roleOk then (s, Failed(RoleFailed))
    else if roleName !in roles then (s, Failed(RoleMissing))
    else if !env.countOk then (s, Failed(CountFailed))
    else
      SelectPicks(s.store, order, unread, Some(roleName), |order|);
      RevokeAllOf(OneRole, s, Select(s.store, order, unread, Some(roleName), |order|), turns)
  }

  function RevokeEveryone(s: State, order: seq<string>, unread: set<string>, env: Env, turns: seq<Turn>)
    : (State, Answer)
    requires |order| <= |turns|
  {
    if !env.configOk then (s, Failed(ConfigFailed))
    else if !env.countOk then (s, Failed(CountFailed))
    else
      SelectPicks(s.store, order, unread, None, |order|);
      RevokeAllOf(Everyone, s, Usernames(s.store, Select(s.store, order, unread, None, |order|)), turns)
  }

  /** The cleanup handler: the state it leaves and the count it answers, unless it is refused. */
  function Cleanup(s: State, order: seq<string>, now: int, env: Env, turns: seq<Turn>): (State, Option<nat>)
    requires |order| <= |turns|
  {
    if !env.configOk || !env.countOk then (s, None)
    else
      var (t, n) := CleanFirst(s, order, now, turns, |order|);
      (t, Some(n))
  }

  /** The role and username inside a lease, when the lease has the shape this engine gives out. */
  function LeaseParts(leaseId: string): Option<(string, string)> {
    var parts := Split(leaseId, '/');
    if |parts| < 4 || parts[0] != "teradata" || parts[1] != "creds" then None else Some((parts[2], parts[3]))
  }

  lemma LeasePartsOfLeaseId(roleName: string, u: string)
    requires '/' !in roleName && '/' !in u
    ensures LeaseParts(LeaseId(roleName, u)) == Some((roleName, u))
  {
    var tail := roleName + "/" + u;
    assert LeaseId(roleName, u) == "teradata" + "/" + ("creds" + "/" + tail);
    SplitFirst("teradata", '/', "creds" + "/" + tail);
    SplitFirst("creds", '/', tail);
    SplitFirst(roleName, '/', u);
    SplitPiece(u, '/');
  }

  /** The framework's lease revocation: the user goes, the record stays. */
  function LeaseRevoke(s: State, leaseId: string, getOk: bool, env: Env): (State, Outcome) {
    var parts := LeaseParts(leaseId);
    if parts == None then (s, Done)
    else if !getOk then (s, Refused(LoadFailed))
    else if !env.configOk then (s, Refused(ConfigFailed))
    else if !env.roleOk then (s, Refused(RoleFailed))
    else if !env.connectOk then (s, Refused(ConnectFailed))
    else if !env.dropOk then (s, Refused(DropFailed))
    else (s.(users := s.users - {parts.value.1}), Done)
  }
}
