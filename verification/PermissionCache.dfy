/**
 The in-memory permission cache (packages/auth/src/in-memory-permission-cache-backend.ts): one map
 of records by session id and two secondary indexes, with invalidation by a `user:tenant` scope.
 */
module PermissionCache {
  import opened Wrappers

  datatype Record = Record(sid: string, userId: string, tenantId: string, permissions: seq<string>)

  type Index = map<string, set<string>>

  datatype Cache = Cache(records: map<string, Record>, byUser: Index, byTenant: Index)

  const EMPTY := Cache(map[], map[], map[])

  function Bucket(index: Index, key: string): set<string> {
    if key in index then index[key] else {}
  }

  function AddIndex(index: Index, key: string, sid: string): Index {
    index[key := Bucket(index, key) + {sid}]
  }

  function DropIndex(index: Index, key: string, sid: string): Index {
    if key in index then index[key := index[key] - {sid}] else index
  }

  function SetRecord(c: Cache, r: Record): Cache {
    Cache(c.records[r.sid := r], AddIndex(c.byUser, r.userId, r.sid), AddIndex(c.byTenant, r.tenantId, r.sid))
  }

  function DeleteSid(c: Cache, sid: string): Cache {
    if sid !in c.records then c
    else
      var r := c.records[sid];
      Cache(c.records - {sid}, DropIndex(c.byUser, r.userId, sid), DropIndex(c.byTenant, r.tenantId, sid))
  }

  // ----- Scope messages -----

  /** `message.split(':')`. */
  function Split(message: string): (parts: seq<string>)
    ensures |parts| > 0
  {
    if message == "" then [""]
    else
      var rest := Split(message[1..]);
      if message[0] == ':' then [""] + rest else [[message[0]] + rest[0]] + rest[1..]
  }

  /** The user and tenant of a scope message; a message without both is ignored. */
  function ParseScope(message: string): Option<(string, string)> {
    var parts := Split(message);
    if |parts| < 2 || parts[0] == "" || parts[1] == "" then None else Some((parts[0], parts[1]))
  }

  lemma {:induction false} SplitFirst(user: string, rest: string)
    requires ':' !in user
    ensures Split(user + ":" + rest) == [user] + Split(rest)
  {
    if user == "" {
      assert user + ":" + rest == ":" + rest;
      assert (":" + rest)[1..] == rest;
    } else {
      var message := user + ":" + rest;
      assert message[1..] == user[1..] + ":" + rest;
      SplitFirst(user[1..], rest);
      assert [user[0]] + user[1..] == user;
      assert ([user[1..]] + Split(rest))[1..] == Split(rest);
    }
  }

  lemma {:induction false} SplitWhole(s: string)
    requires ':' !in s
    ensures Split(s) == [s]
  {
    if s != "" {
      SplitWhole(s[1..]);
      assert [s[0]] + s[1..] == s;
    }
  }

  /** Publishing `user:tenant` reaches exactly that scope when neither name is empty or has a colon. */
  lemma ScopeRoundTrip(user: string, tenant: string)
    requires user != "" && tenant != "" && ':' !in user && ':' !in tenant
    ensures ParseScope(user + ":" + tenant) == Some((user, tenant))
  {
    SplitFirst(user, tenant);
    SplitWhole(tenant);
  }

  // ----- What an invalidation removes -----

  /** The sids an invalidation deletes, as the code chooses them from the index buckets. */
  function Victims(c: Cache, message: string): set<string> {
    match ParseScope(message)
    case None => {}
    case Some((user, tenant)) =>
      if user == "*" && tenant == "*" then c.records.Keys
      else if user == "*" then Bucket(c.byTenant, tenant)
      else set sid | sid in Bucket(c.byUser, user) && sid in c.records && c.records[sid].tenantId == tenant
  }

  /** The records a scope is about: what the message asks to remove. */
  predicate InScope(message: string, r: Record) {
    match ParseScope(message)
    case None => false
    case Some((user, tenant)) =>
      if user == "*" then tenant == "*" || r.tenantId == tenant
      else r.userId == user && r.tenantId == tenant
  }

  /** Every record is stored under its own sid and listed in both of its buckets. */
  predicate Listed(c: Cache) {
    forall sid :: sid in c.records ==>
      && c.records[sid].sid == sid
      && sid in Bucket(c.byUser, c.records[sid].userId)
      && sid in Bucket(c.byTenant, c.records[sid].tenantId)
  }

  /** The indexes list nothing else. */
  ghost predicate Tight(c: Cache) {
    && Listed(c)
    && (forall user, sid :: sid in Bucket(c.byUser, user) ==> sid in c.records && c.records[sid].userId == user)
    && (forall tenant, sid :: sid in Bucket(c.byTenant, tenant) ==> sid in c.records && c.records[sid].tenantId == tenant)
  }

  /** Setting `r` would move a live sid to another user or tenant. */
  predicate Rehomes(c: Cache, r: Record) {
    r.sid in c.records && (c.records[r.sid].userId != r.userId || c.records[r.sid].tenantId != r.tenantId)
  }

  function Filed(c: Cache, user: string, sids: set<string>): set<string> {
    set sid | sid in sids && sid in c.records && c.records[sid].userId == user
  }

  function FiledUnderTenant(c: Cache, tenant: string, sids: set<string>): set<string> {
    set sid | sid in sids && sid in c.records && c.records[sid].tenantId == tenant
  }

  /** The cache after deleting all of `sids`, in whatever order. */
  function RemoveAll(c: Cache, sids: set<string>): Cache {
    Cache(
      c.records - sids,
      map user | user in c.byUser :: c.byUser[user] - Filed(c, user, sids),
      map tenant | tenant in c.byTenant :: c.byTenant[tenant] - FiledUnderTenant(c, tenant, sids))
  }

  lemma RemoveNone(c: Cache)
    ensures RemoveAll(c, {}) == c
  {
    assert forall user | user in c.byUser :: c.byUser[user] - Filed(c, user, {}) == c.byUser[user];
    assert forall tenant | tenant in c.byTenant :: c.byTenant[tenant] - FiledUnderTenant(c, tenant, {}) == c.byTenant[tenant];
  }

  lemma RemoveOneMore(c: Cache, sids: set<string>, sid: string)
    requires sid !in sids
    ensures DeleteSid(RemoveAll(c, sids), sid) == RemoveAll(c, sids + {sid})
  {
    var one, both := DeleteSid(RemoveAll(c, sids), sid), RemoveAll(c, sids + {sid});
    assert one.records == both.records;
    forall user | user in c.byUser
      ensures user in one.byUser && one.byUser[user] == both.byUser[user]
    {
      FiledOneMore(c, user, sids, sid);
    }
    forall tenant | tenant in c.byTenant
      ensures tenant in one.byTenant && one.byTenant[tenant] == both.byTenant[tenant]
    {
      FiledUnderOneMore(c, tenant, sids, sid);
    }
    assert one.byUser == both.byUser && one.byTenant == both.byTenant;
  }

  lemma FiledOneMore(c: Cache, user: string, sids: set<string>, sid: string)
    ensures Filed(c, user, sids + {sid}) ==
            if sid in c.records && c.records[sid].userId == user then Filed(c, user, sids) + {sid} else Filed(c, user, sids)
  {
  }

  lemma FiledUnderOneMore(c: Cache, tenant: string, sids: set<string>, sid: string)
    ensures FiledUnderTenant(c, tenant, sids + {sid}) ==
            if sid in c.records && c.records[sid].tenantId == tenant then FiledUnderTenant(c, tenant, sids) + {sid}
            else FiledUnderTenant(c, tenant, sids)
  {
  }

  function Invalidate(c: Cache, message: string): Cache {
    RemoveAll(c, Victims(c, message))
  }

  /** The source's object: three maps updated in place, and the operations so far. */
  class InMemoryPermissionCacheBackend {
    var records: map<string, Record>
    var byUser: Index
    var byTenant: Index
    ghost var history: seq<Op>

    function State(): Cache
      reads this
    {
      Cache(records, byUser, byTenant)
    }

    /** The maps are what the operations so far have made of them. */
    ghost predicate Valid()
      reads this
    {
      State() == Run(history)
    }

    constructor ()
      ensures Valid() && history == []
    {
      records, byUser, byTenant, history := map[], map[], map[], [];
    }

    /**
     What is returned is the last record set for the session, neither deleted since nor in the scope of an
     invalidation since; if no live sid was re-homed, that record is returned whenever there is one.
     */
    method Get(sid: string) returns (r: Option<Record>)
      requires Valid()
      ensures r.Some? ==> r == Survivor(history, sid)
      ensures Gentle(history) ==> r == Survivor(history, sid)
    {
      LookupReturnsTheSurvivor(history, sid);
      r := if sid in records then Some(records[sid]) else None;
    }

    method Set(record: Record)
      modifies this
      ensures State() == SetRecord(old(State()), record)
      ensures history == old(history) + [SetOp(record)] && (old(Valid()) ==> Valid())
    {
      RunOneMore(history, SetOp(record));
      history := history + [SetOp(record)];
      records := records[record.sid := record];
      byUser := AddIndex(byUser, record.userId, record.sid);
      byTenant := AddIndex(byTenant, record.tenantId, record.sid);
    }

    method Delete(sid: string)
      modifies this
      ensures State() == DeleteSid(old(State()), sid)
      ensures history == old(history) + [DeleteOp(sid)] && (old(Valid()) ==> Valid())
    {
      RunOneMore(history, DeleteOp(sid));
      history := history + [DeleteOp(sid)];
      if sid !in records {
        return;
      }
      var record := records[sid];
      records := records - {sid};
      byUser := DropIndex(byUser, record.userId, sid);
      byTenant := DropIndex(byTenant, record.tenantId, sid);
    }

    /** The candidates are read first; each deletion then runs to its end before the next. */
    method InvalidateScope(message: string)
      modifies this
      ensures State() == Invalidate(old(State()), message)
      ensures history == old(history) + [InvalidateOp(message)] && (old(Valid()) ==> Valid())
    {
      RunOneMore(history, InvalidateOp(message));
      DeleteScope(message);
      history := old(history) + [InvalidateOp(message)];
    }

    /** The body of `invalidateScope`, which records its deletions one by one. */
    method DeleteScope(message: string)
      modifies this
      ensures State() == Invalidate(old(State()), message)
    {
      var scope := ParseScope(message);
      RemoveNone(State());
      if scope == None {
        return;
      }
      var (user, tenant) := scope.value;
      var candidates :=
        if user == "*" && tenant == "*" then records.Keys
        else if user == "*" then Bucket(byTenant, tenant)
        else Bucket(byUser, user);
      var filtered := user != "*";
      ghost var before := State();
      ghost var removed: set<string> := {};
      var pending := candidates;
      while pending != {}
        invariant pending <= candidates
        invariant removed == Chosen(before, candidates - pending, filtered, tenant)
        invariant State() == RemoveAll(before, removed)
        decreases pending
      {
        var sid :| sid in pending;
        pending := pending - {sid};
        assert candidates - pending == (candidates - (pending + {sid})) + {sid};
        if !filtered || (sid in records && records[sid].tenantId == tenant) {
          RemoveOneMore(before, removed, sid);
          removed := removed + {sid};
          Delete(sid);
        }
      }
      assert candidates - {} == candidates;
      assert removed == Victims(before, message);
    }

    method Close()
      modifies this
      ensures State() == EMPTY
      ensures history == old(history) + [CloseOp] && Valid()
    {
      records, byUser, byTenant := map[], map[], map[];
      RunClosed(history);
      history := history + [CloseOp];
    }
  }

  ghost function Chosen(c: Cache, sids: set<string>, filtered: bool, tenant: string): set<string> {
    if filtered then set sid | sid in sids && sid in c.records && c.records[sid].tenantId == tenant else sids
  }

  // ----- What every operation keeps -----

  datatype Op = SetOp(record: Record) | DeleteOp(sid: string) | InvalidateOp(message: string) | CloseOp

  function Apply(c: Cache, op: Op): Cache {
    match op
    case SetOp(r) => SetRecord(c, r)
    case DeleteOp(sid) => DeleteSid(c, sid)
    case InvalidateOp(message) => Invalidate(c, message)
    case CloseOp => EMPTY
  }

  function Run(ops: seq<Op>): Cache {
    if ops == [] then EMPTY else Apply(Run(ops[..|ops| - 1]), ops[|ops| - 1])
  }

  lemma RunOneMore(ops: seq<Op>, op: Op)
    ensures Run(ops + [op]) == Apply(Run(ops), op)
  {
    assert (ops + [op])[..|ops|] == ops;
  }

  lemma RunClosed(ops: seq<Op>)
    ensures Run(ops + [CloseOp]) == EMPTY
  {
    RunOneMore(ops, CloseOp);
  }

  lemma DeleteIsRemove(c: Cache, sid: string)
    ensures DeleteSid(c, sid) == RemoveAll(c, {sid})
  {
    RemoveNone(c);
    RemoveOneMore(c, {}, sid);
    assert {} + {sid} == {sid};
  }

  lemma RemoveKeepsListed(c: Cache, sids: set<string>)
    requires Listed(c)
    ensures Listed(RemoveAll(c, sids))
    ensures Tight(c) ==> Tight(RemoveAll(c, sids))
  {
    var after := RemoveAll(c, sids);
    assert forall user, sid :: sid in Bucket(after.byUser, user) ==> sid in Bucket(c.byUser, user);
    assert forall tenant, sid :: sid in Bucket(after.byTenant, tenant) ==> sid in Bucket(c.byTenant, tenant);
  }

  /** Any order of operations leaves every record listed in both of its buckets. */
  lemma {:induction false} RunKeepsListed(ops: seq<Op>)
    ensures Listed(Run(ops))
  {
    if ops != [] {
      var before, op := Run(ops[..|ops| - 1]), ops[|ops| - 1];
      RunKeepsListed(ops[..|ops| - 1]);
      match op {
        case SetOp(r) =>
        case DeleteOp(sid) => DeleteIsRemove(before, sid); RemoveKeepsListed(before, {sid});
        case InvalidateOp(message) => RemoveKeepsListed(before, Victims(before, message));
        case CloseOp =>
      }
    }
  }

  /** After a scope is invalidated no record of it is left, and what is left is unchanged. */
  lemma InvalidateClears(c: Cache, message: string)
    requires Listed(c)
    ensures var after := Invalidate(c, message).records;
            && (forall sid :: sid in after ==> !InScope(message, after[sid]))
            && (forall sid :: sid in after ==> sid in c.records && after[sid] == c.records[sid])
  {
  }

  /** On tight indexes an invalidation removes exactly the records of its scope. */
  lemma InvalidateIsExact(c: Cache, message: string)
    requires Tight(c)
    ensures forall sid :: sid in Invalidate(c, message).records <==>
                          sid in c.records && !InScope(message, c.records[sid])
  {
  }

  /** The bucket a scope consults holds a live record that the scope is not about. */
  predicate Strangers(c: Cache, message: string) {
    match ParseScope(message)
    case None => false
    case Some((user, tenant)) =>
      if user == "*" then
        tenant != "*" && exists sid :: sid in Bucket(c.byTenant, tenant) && sid in c.records && c.records[sid].tenantId != tenant
      else
        exists sid :: sid in Bucket(c.byUser, user) && sid in c.records
          && c.records[sid].tenantId == tenant && c.records[sid].userId != user
  }

  /** In every reachable cache an invalidation is exact if and only if its bucket lists no stranger. */
  lemma InvalidateIsExactIff(c: Cache, message: string)
    requires Listed(c)
    ensures (forall sid :: sid in c.records ==>
               (sid in Invalidate(c, message).records <==> !InScope(message, c.records[sid])))
            <==> !Strangers(c, message)
  {
  }

  /** Setting a record keeps the indexes tight exactly when it does not re-home a live sid. */
  lemma SetKeepsTightIff(c: Cache, r: Record)
    requires Tight(c)
    ensures Tight(SetRecord(c, r)) <==> !Rehomes(c, r)
  {
    if Rehomes(c, r) {
      var after, was := SetRecord(c, r), c.records[r.sid];
      assert r.sid in Bucket(c.byUser, was.userId) && r.sid in Bucket(c.byTenant, was.tenantId);
      assert r.sid in Bucket(after.byUser, was.userId) && r.sid in Bucket(after.byTenant, was.tenantId);
      assert after.records[r.sid] == r;
    } else {
      SetKeepsTight(c, r);
    }
  }

  lemma SetKeepsTight(c: Cache, r: Record)
    requires Tight(c) && !Rehomes(c, r)
    ensures Tight(SetRecord(c, r))
  {
    var after := SetRecord(c, r);
    forall user, sid | sid in Bucket(after.byUser, user)
      ensures sid in after.records && after.records[sid].userId == user
    {
      assert sid in Bucket(c.byUser, user) || (sid == r.sid && user == r.userId);
    }
    forall tenant, sid | sid in Bucket(after.byTenant, tenant)
      ensures sid in after.records && after.records[sid].tenantId == tenant
    {
      assert sid in Bucket(c.byTenant, tenant) || (sid == r.sid && tenant == r.tenantId);
    }
  }

  /** No operation of the run moves a live sid to another user or tenant. */
  ghost predicate Gentle(ops: seq<Op>) {
    forall i :: 0 <= i < |ops| && ops[i].SetOp? ==> !Rehomes(Run(ops[..i]), ops[i].record)
  }

  lemma {:induction false} GentleRunIsTight(ops: seq<Op>)
    requires Gentle(ops)
    ensures Tight(Run(ops))
  {
    if ops != [] {
      var n := |ops| - 1;
      var before, op := Run(ops[..n]), ops[n];
      assert forall i | 0 <= i < n :: ops[..n][..i] == ops[..i];
      GentleRunIsTight(ops[..n]);
      match op {
        case SetOp(r) => SetKeepsTightIff(before, r);
        case DeleteOp(sid) => DeleteIsRemove(before, sid); RemoveKeepsListed(before, {sid});
        case InvalidateOp(message) => RemoveKeepsListed(before, Victims(before, message));
        case CloseOp =>
      }
    }
  }

  /** Over a run that re-homes no live sid every invalidation is exact. */
  lemma GentleInvalidateIsExact(ops: seq<Op>, message: string)
    requires Gentle(ops)
    ensures var c := Run(ops);
            forall sid :: sid in Invalidate(c, message).records <==>
                          sid in c.records && !InScope(message, c.records[sid])
  {
    GentleRunIsTight(ops);
    InvalidateIsExact(Run(ops), message);
  }

  ghost predicate WasSet(ops: seq<Op>, sid: string, user: Option<string>, tenant: Option<string>) {
    exists i :: 0 <= i < |ops| && ops[i].SetOp? && ops[i].record.sid == sid
      && (user.Some? ==> ops[i].record.userId == user.value)
      && (tenant.Some? ==> ops[i].record.tenantId == tenant.value)
  }

  /** Every index entry goes back to a `set` under that key. */
  lemma {:induction false} EntriesWereSet(ops: seq<Op>)
    ensures forall user, sid :: sid in Bucket(Run(ops).byUser, user) ==> WasSet(ops, sid, Some(user), None)
    ensures forall tenant, sid :: sid in Bucket(Run(ops).byTenant, tenant) ==> WasSet(ops, sid, None, Some(tenant))
  {
    if ops != [] {
      var n := |ops| - 1;
      var before, op := ops[..n], ops[n];
      EntriesWereSet(before);
      if op.DeleteOp? {
        DeleteIsRemove(Run(before), op.sid);
      }
      forall user, sid | sid in Bucket(Run(ops).byUser, user)
        ensures WasSet(ops, sid, Some(user), None)
      {
        if op.SetOp? && op.record.sid == sid && op.record.userId == user {
          assert ops[n].record.sid == sid;
        } else {
          assert sid in Bucket(Run(before).byUser, user);
          var i :| 0 <= i < n && before[i].SetOp? && before[i].record.sid == sid && before[i].record.userId == user;
          assert ops[i] == before[i];
        }
      }
      forall tenant, sid | sid in Bucket(Run(ops).byTenant, tenant)
        ensures WasSet(ops, sid, None, Some(tenant))
      {
        if op.SetOp? && op.record.sid == sid && op.record.tenantId == tenant {
          assert ops[n].record.sid == sid;
        } else {
          assert sid in Bucket(Run(before).byTenant, tenant);
          var i :| 0 <= i < n && before[i].SetOp? && before[i].record.sid == sid && before[i].record.tenantId == tenant;
          assert ops[i] == before[i];
        }
      }
    }
  }

  /** A record removed outside its scope belongs to a sid that an earlier `set` filed under the scope. */
  lemma OverInvalidationIsRehomed(ops: seq<Op>, message: string, sid: string)
    requires sid in Run(ops).records && sid !in Invalidate(Run(ops), message).records
    requires !InScope(message, Run(ops).records[sid])
    ensures ParseScope(message).Some?
    ensures var (user, tenant) := ParseScope(message).value;
            if user == "*" then WasSet(ops, sid, None, Some(tenant)) else WasSet(ops, sid, Some(user), None)
  {
    EntriesWereSet(ops);
  }

  // ----- What a lookup returns -----

  /** The last record set for a session, unless it was deleted since or in the scope of an invalidation since. */
  function Survivor(ops: seq<Op>, sid: string): Option<Record> {
    if ops == [] then None
    else
      var before := Survivor(ops[..|ops| - 1], sid);
      match ops[|ops| - 1]
      case SetOp(r) => if r.sid == sid then Some(r) else before
      case DeleteOp(other) => if other == sid then None else before
      case InvalidateOp(message) => if before.Some? && InScope(message, before.value) then None else before
      case CloseOp => None
  }

  lemma {:induction false} StoredIsSurvivor(ops: seq<Op>, sid: string)
    ensures sid in Run(ops).records ==> Survivor(ops, sid) == Some(Run(ops).records[sid])
  {
    if ops != [] {
      var n := |ops| - 1;
      StoredIsSurvivor(ops[..n], sid);
      if ops[n].InvalidateOp? {
        RunKeepsListed(ops[..n]);
        InvalidateClears(Run(ops[..n]), ops[n].message);
      }
    }
  }

  lemma {:induction false} SurvivorIsStored(ops: seq<Op>, sid: string)
    requires Gentle(ops) && Survivor(ops, sid).Some?
    ensures sid in Run(ops).records
  {
    var n := |ops| - 1;
    var front := ops[..n];
    assert forall i | 0 <= i < n :: front[..i] == ops[..i];
    assert Gentle(front);
    if Survivor(front, sid).Some? {
      SurvivorIsStored(front, sid);
      StoredIsSurvivor(front, sid);
      if ops[n].InvalidateOp? {
        GentleInvalidateIsExact(front, ops[n].message);
      }
    }
  }

  /** A lookup after any run returns that record or nothing, and it returns that record if no live sid was re-homed. */
  lemma LookupReturnsTheSurvivor(ops: seq<Op>, sid: string)
    ensures sid in Run(ops).records ==> Survivor(ops, sid) == Some(Run(ops).records[sid])
    ensures Gentle(ops) && Survivor(ops, sid).Some? ==> sid in Run(ops).records
  {
    StoredIsSurvivor(ops, sid);
    if Gentle(ops) && Survivor(ops, sid).Some? {
      SurvivorIsStored(ops, sid);
    }
  }

  // ----- Exactness over runs -----

  /** An invalidation removes the records of its scope and no others. */
  ghost predicate Exact(c: Cache, message: string) {
    forall sid :: sid in c.records ==>
      (sid in Invalidate(c, message).records <==> !InScope(message, c.records[sid]))
  }

  /** A name that a scope message can carry and that is not the wildcard. */
  predicate Nameable(name: string) {
    name != "" && ':' !in name && name != "*"
  }

  predicate Named(c: Cache) {
    forall sid :: sid in c.records ==> Nameable(c.records[sid].userId) && Nameable(c.records[sid].tenantId)
  }

  lemma RehomedUserBreaks(c: Cache, r: Record)
    requires Tight(c) && Named(c) && Nameable(r.tenantId)
    requires r.sid in c.records && c.records[r.sid].userId != r.userId
    ensures !Exact(SetRecord(c, r), c.records[r.sid].userId + ":" + r.tenantId)
  {
    var was, after := c.records[r.sid], SetRecord(c, r);
    var message := was.userId + ":" + r.tenantId;
    ScopeRoundTrip(was.userId, r.tenantId);
    assert r.sid in Bucket(after.byUser, was.userId) && after.records[r.sid] == r;
    assert r.sid in Victims(after, message) && !InScope(message, r);
    assert r.sid !in Invalidate(after, message).records;
  }

  lemma RehomedTenantBreaks(c: Cache, r: Record)
    requires Tight(c) && Named(c)
    requires r.sid in c.records && c.records[r.sid].tenantId != r.tenantId
    ensures !Exact(SetRecord(c, r), "*" + ":" + c.records[r.sid].tenantId)
  {
    var was, after := c.records[r.sid], SetRecord(c, r);
    var message := "*" + ":" + was.tenantId;
    ScopeRoundTrip("*", was.tenantId);
    assert r.sid in Bucket(after.byTenant, was.tenantId) && after.records[r.sid] == r;
    assert r.sid in Victims(after, message) && !InScope(message, r);
    assert r.sid !in Invalidate(after, message).records;
  }

  lemma TightIsExact(c: Cache, message: string)
    requires Tight(c)
    ensures Exact(c, message)
  {
    InvalidateIsExact(c, message);
  }

  /** From a tight cache, every invalidation after a set is exact if and only if the set re-homes no live sid. */
  lemma SetKeepsExactIff(c: Cache, r: Record)
    requires Tight(c) && Named(c) && Nameable(r.userId) && Nameable(r.tenantId)
    ensures (forall message :: Exact(SetRecord(c, r), message)) <==> !Rehomes(c, r)
  {
    if Rehomes(c, r) {
      if c.records[r.sid].userId != r.userId {
        RehomedUserBreaks(c, r);
      } else {
        RehomedTenantBreaks(c, r);
      }
    } else {
      SetKeepsTight(c, r);
      forall message ensures Exact(SetRecord(c, r), message) {
        TightIsExact(SetRecord(c, r), message);
      }
    }
  }

  predicate NamedSets(ops: seq<Op>) {
    forall i :: 0 <= i < |ops| && ops[i].SetOp? ==> Nameable(ops[i].record.userId) && Nameable(ops[i].record.tenantId)
  }

  lemma {:induction false} NamedRun(ops: seq<Op>)
    requires NamedSets(ops)
    ensures Named(Run(ops))
  {
    if ops != [] {
      NamedRun(ops[..|ops| - 1]);
    }
  }

  /** At every moment of the run every invalidation would be exact. */
  ghost predicate AlwaysExact(ops: seq<Op>) {
    forall n, message :: 0 <= n <= |ops| ==> Exact(Run(ops[..n]), message)
  }

  lemma GentleIsAlwaysExact(ops: seq<Op>)
    requires Gentle(ops)
    ensures AlwaysExact(ops)
  {
    forall n | 0 <= n <= |ops| ensures forall message :: Exact(Run(ops[..n]), message) {
      assert forall i | 0 <= i < n :: ops[..n][..i] == ops[..i];
      GentleRunIsTight(ops[..n]);
      forall message ensures Exact(Run(ops[..n]), message) {
        TightIsExact(Run(ops[..n]), message);
      }
    }
  }

  /** What the run promises, it promises of the run without its last operation. */
  lemma FrontPromises(ops: seq<Op>)
    requires ops != [] && NamedSets(ops) && AlwaysExact(ops)
    ensures NamedSets(ops[..|ops| - 1]) && AlwaysExact(ops[..|ops| - 1])
  {
    var front := ops[..|ops| - 1];
    forall n, message | 0 <= n <= |front|
      ensures Exact(Run(front[..n]), message)
    {
      assert front[..n] == ops[..n];
      assert Exact(Run(ops[..n]), message);
    }
  }

  /** A run is gentle when all of it but the last operation is, and that re-homes nothing. */
  lemma GentleSnoc(ops: seq<Op>)
    requires ops != [] && Gentle(ops[..|ops| - 1])
    requires var last := ops[|ops| - 1]; last.SetOp? ==> !Rehomes(Run(ops[..|ops| - 1]), last.record)
    ensures Gentle(ops)
  {
    var front := ops[..|ops| - 1];
    forall i | 0 <= i < |ops| && ops[i].SetOp?
      ensures !Rehomes(Run(ops[..i]), ops[i].record)
    {
      if i < |front| {
        assert front[i] == ops[i] && front[..i] == ops[..i];
      }
    }
  }

  lemma {:induction false} AlwaysExactIsGentle(ops: seq<Op>)
    requires NamedSets(ops) && AlwaysExact(ops)
    ensures Gentle(ops)
  {
    if ops != [] {
      var front := ops[..|ops| - 1];
      FrontPromises(ops);
      AlwaysExactIsGentle(front);
      GentleRunIsTight(front);
      NamedRun(front);
      LastSetIsGentle(ops);
      GentleSnoc(ops);
    }
  }

  /** Over a whole run invalidations are always exact if and only if no live sid is ever re-homed. */
  lemma AlwaysExactIffGentle(ops: seq<Op>)
    requires NamedSets(ops)
    ensures AlwaysExact(ops) <==> Gentle(ops)
  {
    if AlwaysExact(ops) {
      AlwaysExactIsGentle(ops);
    }
    if Gentle(ops) {
      GentleIsAlwaysExact(ops);
    }
  }

  lemma LastSetIsGentle(ops: seq<Op>)
    requires ops != [] && NamedSets(ops) && AlwaysExact(ops)
    requires var c := Run(ops[..|ops| - 1]); Tight(c) && Named(c)
    ensures var last := ops[|ops| - 1]; last.SetOp? ==> !Rehomes(Run(ops[..|ops| - 1]), last.record)
  {
    var last := ops[|ops| - 1];
    if last.SetOp? {
      var front := ops[..|ops| - 1];
      assert ops[..|ops|] == ops;
      assert Run(ops) == SetRecord(Run(front), last.record);
      forall message ensures Exact(SetRecord(Run(front), last.record), message) {
        assert Exact(Run(ops[..|ops|]), message);
      }
      assert Nameable(ops[|ops| - 1].record.userId);
      SetKeepsExactIff(Run(front), last.record);
    }
  }

  /** A session set under another tenant, and the invalidation of the old tenant that then takes it. */
  lemma RehomedTenantIsOverInvalidated()
    ensures var ops := [SetOp(Record("s", "a", "t", [])), SetOp(Record("s", "a", "u", []))];
            && !Gentle(ops)
            && "s" in Run(ops).records
            && !InScope("*:t", Run(ops).records["s"])
            && "s" !in Invalidate(Run(ops), "*:t").records
  {
    var first, second := SetOp(Record("s", "a", "t", [])), SetOp(Record("s", "a", "u", []));
    var ops := [first, second];
    assert ops[..1] == [first];
    assert [first][..0] == [];
    assert Run([first]) == SetRecord(EMPTY, first.record);
    assert Run(ops) == SetRecord(Run([first]), second.record);
    assert Rehomes(Run(ops[..1]), ops[1].record);
    ScopeRoundTrip("*", "t");
    assert "*" + ":" + "t" == "*:t";
  }

  /** A run that does re-home a live sid, and the invalidation that then takes another user's record. */
  lemma RehomedSidIsOverInvalidated()
    ensures var ops := [SetOp(Record("s", "a", "t", [])), SetOp(Record("s", "b", "t", []))];
            && !Gentle(ops)
            && "s" in Run(ops).records
            && !InScope("a:t", Run(ops).records["s"])
            && "s" !in Invalidate(Run(ops), "a:t").records
  {
    var first, second := SetOp(Record("s", "a", "t", [])), SetOp(Record("s", "b", "t", []));
    var ops := [first, second];
    assert ops[..1] == [first];
    assert [first][..0] == [];
    assert Run([first]) == SetRecord(EMPTY, first.record);
    assert Run(ops) == SetRecord(Run([first]), second.record);
    assert Rehomes(Run(ops[..1]), ops[1].record);
    ScopeRoundTrip("a", "t");
    assert "a" + ":" + "t" == "a:t";
  }
}
