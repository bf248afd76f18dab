/** The client-side session table (`SessionManager` in client/session.py):
    sessions are dictionaries keyed by a session id, created with a capacity
    bound that evicts the oldest session, expired by time since last access,
    updated by merging keys, and each holding a dictionary of tasks.

    The wall clock is the parameter `now` (whole seconds); the uuid of a new
    session is the parameter `newId`, required to be unused. Python keeps a
    dictionary's keys in insertion order; `order` is that order. */
module Sessions {
  import opened Py

  /** One session's dictionary. */
  type Session = map<string, Json>

  /** The keys `update_session` never overwrites. */
  const Protected: set<string> := {"id", "created_at"}

  /** The keys every session is created with; no operation removes a key,
      and the protected ones keep their values. */
  predicate WellFormed(id: string, s: Session)
  {
    && "id" in s && s["id"] == JStr(id)
    && "user_identifier" in s
    && "created_at" in s && s["created_at"].JNum?
    && "last_accessed" in s
    && "tasks" in s
  }

  predicate Distinct(xs: seq<string>)
  {
    forall i, j :: 0 <= i < j < |xs| ==> xs[i] != xs[j]
  }

  function Elems(xs: seq<string>): set<string>
  {
    set k | k in xs
  }

  /** A snapshot of the manager: the sessions and their insertion order. */
  datatype Table = Table(sessions: map<string, Session>, order: seq<string>)

  /** `order` lists the session ids once each, and every session is well formed. */
  ghost predicate Consistent(t: Table)
  {
    && Distinct(t.order)
    && (forall k :: k in t.sessions <==> k in t.order)
    && (forall k :: k in t.sessions ==> WellFormed(k, t.sessions[k]))
  }

  /** A consistent table within its capacity (when the capacity is positive). */
  ghost predicate ValidTable(t: Table, maxSessions: int)
  {
    Consistent(t) && (maxSessions >= 1 ==> |t.sessions| <= maxSessions)
  }

  /** The dictionary `create_session` stores. */
  function NewSession(id: string, user: Option<string>, now: int): (s: Session)
    ensures WellFormed(id, s)
    ensures s["user_identifier"] == (if user.Some? then JStr(user.value) else JNull)
    ensures s["created_at"] == JNum(now) && s["last_accessed"] == JNum(now)
    ensures s["tasks"] == JObj(map[])
  {
    map["id" := JStr(id),
        "user_identifier" := (if user.Some? then JStr(user.value) else JNull),
        "created_at" := JNum(now),
        "last_accessed" := JNum(now),
        "tasks" := JObj(map[])]
  }

  // ---------------------------------------------------------------------
  // Deletion and insertion order

  /** `order` without the ids in `gone`, in the same order. */
  function Without(order: seq<string>, gone: set<string>): (r: seq<string>)
    ensures forall k :: k in r <==> k in order && k !in gone
    ensures Distinct(order) ==> Distinct(r)
    ensures |r| <= |order|
  {
    if order == [] then []
    else if order[0] in gone then Without(order[1..], gone)
    else [order[0]] + Without(order[1..], gone)
  }

  /** Deletion filters each part of a concatenation separately: the ids
      that stay keep their relative order. */
  lemma {:induction false} WithoutConcat(a: seq<string>, b: seq<string>, gone: set<string>)
    ensures Without(a + b, gone) == Without(a, gone) + Without(b, gone)
    decreases |a|
  {
    if a == [] {
      assert a + b == b;
    } else {
      assert (a + b)[0] == a[0];
      assert (a + b)[1..] == a[1..] + b;
      WithoutConcat(a[1..], b, gone);
    }
  }

  /** A single id stays exactly when it is not deleted. */
  lemma WithoutSingle(x: string, gone: set<string>)
    ensures Without([x], gone) == if x in gone then [] else [x]
  {
    assert [x][1..] == [];
  }

  lemma {:induction false} WithoutTwice(order: seq<string>, g: set<string>, h: set<string>)
    ensures Without(Without(order, g), h) == Without(order, g + h)
  {
    if order != [] {
      WithoutTwice(order[1..], g, h);
      if order[0] !in g {
        var rest := Without(order[1..], g);
        assert ([order[0]] + rest)[0] == order[0];
        assert ([order[0]] + rest)[1..] == rest;
      }
    }
  }

  /** The table without the sessions in `gone`. */
  function Drop(t: Table, gone: set<string>): Table
  {
    Table(t.sessions - gone, Without(t.order, gone))
  }

  lemma SubsetCard(a: set<string>, b: set<string>)
    requires a <= b
    ensures |a| <= |b|
    decreases |a|
  {
    if a != {} {
      var x :| x in a;
      SubsetCard(a - {x}, b - {x});
    }
  }

  /** Removing sessions keeps the table valid and never grows it; removing
      one present session shrinks it by one. */
  lemma DropValid(t: Table, gone: set<string>, maxSessions: int)
    requires ValidTable(t, maxSessions)
    ensures ValidTable(Drop(t, gone), maxSessions)
    ensures |Drop(t, gone).sessions| <= |t.sessions|
    ensures forall x :: gone == {x} && x in t.sessions ==> |Drop(t, gone).sessions| == |t.sessions| - 1
  {
    var d := Drop(t, gone);
    assert d.sessions.Keys == t.sessions.Keys - gone;
    SubsetCard(d.sessions.Keys, t.sessions.Keys);
  }

  // ---------------------------------------------------------------------
  // Expiry

  function LastAccessed(s: Session): Option<int>
    requires "last_accessed" in s
  {
    AsNumber(s["last_accessed"])
  }

  /** `now - session["last_accessed"] > timeout`, strictly. */
  predicate IsExpired(s: Session, now: int, timeout: int)
    requires "last_accessed" in s
  {
    LastAccessed(s).Some? && now - LastAccessed(s).value > timeout
  }

  /** The comprehension of `_cleanup_expired_sessions` over the ids `ids`:
      the expired ids in order, or the TypeError of the first session whose
      last access time is not a number. */
  function Expired(sessions: map<string, Session>, ids: seq<string>, now: int, timeout: int): (r: Result<seq<string>>)
    requires forall k :: k in ids ==> k in sessions && "last_accessed" in sessions[k]
    ensures r.Err? <==> exists i :: 0 <= i < |ids| && LastAccessed(sessions[ids[i]]).None?
    ensures r.Err? ==> r.error.TypeError?
    ensures r.Ok? ==> forall k :: k in r.value <==> k in ids && IsExpired(sessions[k], now, timeout)
    ensures r.Ok? && Distinct(ids) ==> Distinct(r.value)
  {
    if ids == [] then Ok([])
    else
      var k := ids[|ids| - 1];
      match Expired(sessions, ids[..|ids| - 1], now, timeout)
      case Err(e) => Err(e)
      case Ok(gone) =>
        match LastAccessed(sessions[k])
        case None => Err(TypeError("unsupported operand type(s) for -: 'float' and '"
                                   + TypeName(sessions[k]["last_accessed"]) + "'"))
        case Some(t) => if now - t > timeout then Ok(gone + [k]) else Ok(gone)
  }

  /** Once a prefix of the ids fails, the whole comprehension fails the same way. */
  lemma {:induction false} ExpiredFailsEarly(sessions: map<string, Session>, ids: seq<string>, j: nat, now: int, timeout: int)
    requires forall k :: k in ids ==> k in sessions && "last_accessed" in sessions[k]
    requires j <= |ids|
    requires Expired(sessions, ids[..j], now, timeout).Err?
    ensures Expired(sessions, ids, now, timeout) == Expired(sessions, ids[..j], now, timeout)
    decreases |ids|
  {
    if j < |ids| {
      ghost var init := ids[..|ids| - 1];
      assert init[..j] == ids[..j];
      ExpiredFailsEarly(sessions, init, j, now, timeout);
      ExpiredErrExtends(sessions, ids, now, timeout);
    } else {
      assert ids[..j] == ids;
    }
  }

  /** One more id after a prefix that succeeds: the TypeError when its last
      access time is not a number, otherwise the prefix's ids followed by
      this one when it has expired. */
  lemma ExpiredStep(sessions: map<string, Session>, ids: seq<string>, now: int, timeout: int)
    requires forall k :: k in ids ==> k in sessions && "last_accessed" in sessions[k]
    requires ids != [] && Expired(sessions, ids[..|ids| - 1], now, timeout).Ok?
    ensures var k := ids[|ids| - 1];
      var gone := Expired(sessions, ids[..|ids| - 1], now, timeout).value;
      Expired(sessions, ids, now, timeout) ==
        match LastAccessed(sessions[k])
        case None => Err(TypeError("unsupported operand type(s) for -: 'float' and '"
                                   + TypeName(sessions[k]["last_accessed"]) + "'"))
        case Some(t) => if now - t > timeout then Ok(gone + [k]) else Ok(gone)
  {
  }

  /** One more id after a failing prefix keeps the prefix's error. */
  lemma ExpiredErrExtends(sessions: map<string, Session>, ids: seq<string>, now: int, timeout: int)
    requires forall k :: k in ids ==> k in sessions && "last_accessed" in sessions[k]
    requires ids != [] && Expired(sessions, ids[..|ids| - 1], now, timeout).Err?
    ensures Expired(sessions, ids, now, timeout) == Expired(sessions, ids[..|ids| - 1], now, timeout)
  {
  }

  /** The comprehension loop of `_cleanup_expired_sessions` over the ids
      `ids`, in order: the expired ids, or the TypeError of the first
      session whose last access time is not a number. */
  method CollectExpired(sessions: map<string, Session>, ids: seq<string>, now: int, timeout: int)
      returns (r: Result<seq<string>>)
    requires forall k :: k in ids ==> k in sessions && "last_accessed" in sessions[k]
    ensures r == Expired(sessions, ids, now, timeout)
  {
    var expired: seq<string> := [];
    var i := 0;
    while i < |ids|
      invariant 0 <= i <= |ids|
      invariant Expired(sessions, ids[..i], now, timeout) == Ok(expired)
    {
      var k := ids[i];
      ghost var next := ids[..i + 1];
      assert next[..|next| - 1] == ids[..i] && next[|next| - 1] == k;
      ExpiredStep(sessions, next, now, timeout);
      var last := LastAccessed(sessions[k]);
      if last.None? {
        r := Err(TypeError("unsupported operand type(s) for -: 'float' and '"
                           + TypeName(sessions[k]["last_accessed"]) + "'"));
        ExpiredFailsEarly(sessions, ids, i + 1, now, timeout);
        return;
      }
      if now - last.value > timeout {
        expired := expired + [k];
      }
      i := i + 1;
    }
    assert ids[..i] == ids;
    r := Ok(expired);
  }

  lemma ElemsDistinctCard(xs: seq<string>)
    requires Distinct(xs)
    ensures |Elems(xs)| == |xs|
    decreases |xs|
  {
    if xs != [] {
      var init := xs[..|xs| - 1];
      assert Distinct(init);
      ElemsDistinctCard(init);
      assert Elems(xs) == Elems(init) + {xs[|xs| - 1]};
      assert xs[|xs| - 1] !in Elems(init);
    }
  }

  lemma RemoveSubsetCard(keys: set<string>, gone: set<string>)
    requires gone <= keys
    ensures |keys - gone| == |keys| - |gone|
    decreases |gone|
  {
    if gone != {} {
      var x :| x in gone;
      RemoveSubsetCard(keys - {x}, gone - {x});
      assert keys - gone == (keys - {x}) - (gone - {x});
    }
  }

  /** `_cleanup_expired_sessions` removes exactly the sessions idle for more
      than the timeout, keeps the others untouched, and returns how many it
      removed. */
  lemma CleanupMeaning(t: Table, now: int, timeout: int)
    requires Consistent(t)
    requires Expired(t.sessions, t.order, now, timeout).Ok?
    ensures var gone := Expired(t.sessions, t.order, now, timeout).value;
      var after := Drop(t, Elems(gone)).sessions;
      && (forall k :: k in after <==> k in t.sessions && !IsExpired(t.sessions[k], now, timeout))
      && (forall k :: k in after ==> after[k] == t.sessions[k])
      && |after| == |t.sessions| - |gone|
  {
    var gone := Expired(t.sessions, t.order, now, timeout).value;
    var after := Drop(t, Elems(gone)).sessions;
    ElemsDistinctCard(gone);
    assert after.Keys == t.sessions.Keys - Elems(gone);
    RemoveSubsetCard(t.sessions.Keys, Elems(gone));
  }

  // ---------------------------------------------------------------------
  // Creation

  /** `key=lambda s: self.sessions[s]["created_at"]`, over well-formed sessions. */
  function CreationKey(sessions: map<string, Session>, k: string): int
  {
    if k in sessions && "created_at" in sessions[k] && sessions[k]["created_at"].JNum?
    then sessions[k]["created_at"].n else 0
  }

  /** Where `min(ids, key=key)` finds its answer: Python's `min` keeps the
      first least key. */
  function OldestIndex(ids: seq<string>, sessions: map<string, Session>): (m: nat)
    requires ids != []
    ensures m < |ids|
  {
    if |ids| == 1 then 0
    else
      var b := OldestIndex(ids[..|ids| - 1], sessions);
      if CreationKey(sessions, ids[|ids| - 1]) < CreationKey(sessions, ids[b]) then |ids| - 1 else b
  }

  /** `min(ids, key=key)` */
  function Oldest(ids: seq<string>, sessions: map<string, Session>): (r: string)
    requires ids != []
    ensures r in ids
  {
    ids[OldestIndex(ids, sessions)]
  }

  /** The chosen id has the least key, and every id before it a greater one. */
  lemma {:induction false} OldestIsFirstMinimum(ids: seq<string>, sessions: map<string, Session>)
    requires ids != []
    ensures var m := OldestIndex(ids, sessions);
      && (forall j :: 0 <= j < |ids| ==> CreationKey(sessions, ids[m]) <= CreationKey(sessions, ids[j]))
      && (forall j :: 0 <= j < m ==> CreationKey(sessions, ids[m]) < CreationKey(sessions, ids[j]))
  {
    var n := |ids|;
    if n > 1 {
      var init := ids[..n - 1];
      OldestIsFirstMinimum(init, sessions);
      assert forall j :: 0 <= j < n - 1 ==> init[j] == ids[j];
    }
  }

  function CreatedAt(s: Session): int
    requires "created_at" in s && s["created_at"].JNum?
  {
    s["created_at"].n
  }

  /** The table with `s` stored under the new id `id`, last in order. */
  function Insert(t: Table, id: string, s: Session): (r: Table)
    ensures id in r.sessions && r.sessions[id] == s
    ensures r.order != [] && r.order[|r.order| - 1] == id
  {
    Table(t.sessions[id := s], t.order + [id])
  }

  /** Inserting adds exactly `id`, keeps every other session's dictionary,
      and keeps the order before it. */
  lemma InsertFrame(t: Table, id: string, s: Session)
    ensures var r := Insert(t, id, s);
      && r.sessions.Keys == t.sessions.Keys + {id}
      && (forall k :: k in t.sessions && k != id ==> r.sessions[k] == t.sessions[k])
      && |r.order| == |t.order| + 1 && r.order[..|t.order|] == t.order
  {
  }

  /** A consistent table with a session has a non-empty order. */
  lemma OrderNonEmpty(t: Table)
    requires Consistent(t) && |t.sessions| != 0
    ensures t.order != []
  {
    var k :| k in t.sessions;
  }

  /** The second half of `create_session`, on the table `c` left by the
      cleanup: at capacity evict the oldest session, then store the new
      session last. A positive capacity means the table is not empty when
      `min` is called. */
  function Admit(c: Table, maxSessions: int, user: Option<string>, now: int, newId: string): (r: (Result<string>, Table))
    requires Consistent(c) && maxSessions >= 1
  {
    if |c.sessions| >= maxSessions then
      OrderNonEmpty(c);
      (Ok(newId), Insert(Drop(c, {Oldest(c.order, c.sessions)}), newId, NewSession(newId, user, now)))
    else
      (Ok(newId), Insert(c, newId, NewSession(newId, user, now)))
  }

  /** `create_session`: drop expired sessions, then admit the new one. */
  function Create(t: Table, maxSessions: int, timeout: int, user: Option<string>, now: int, newId: string): (r: (Result<string>, Table))
    requires Consistent(t) && maxSessions >= 1
  {
    match Expired(t.sessions, t.order, now, timeout)
    case Err(e) => (Err(e), t)
    case Ok(gone) =>
      DropValid(t, Elems(gone), 0);
      Admit(Drop(t, Elems(gone)), maxSessions, user, now, newId)
  }

  /** Admission always succeeds: it answers the new id, stores the new
      session under it and puts it last in the insertion order; below
      capacity every other session stays, at capacity exactly the one `min`
      picks goes. That the surviving sessions keep their dictionaries and
      their relative order is `AdmitFrame`. */
  lemma AdmitMeaning(c: Table, maxSessions: int, user: Option<string>, now: int, newId: string)
    requires Consistent(c) && maxSessions >= 1 && newId !in c.sessions
    ensures var r := Admit(c, maxSessions, user, now, newId);
      && r.0 == Ok(newId)
      && newId in r.1.sessions && r.1.sessions[newId] == NewSession(newId, user, now)
      && r.1.order != [] && r.1.order[|r.1.order| - 1] == newId
      && (|c.sessions| < maxSessions ==> r.1.sessions.Keys == c.sessions.Keys + {newId})
      && (|c.sessions| >= maxSessions ==>
            && c.order != []
            && r.1.sessions.Keys == c.sessions.Keys - {Oldest(c.order, c.sessions)} + {newId})
  {
    if |c.sessions| >= maxSessions {
      AdmitMeaningAtCapacity(c, maxSessions, user, now, newId);
    } else {
      AdmitMeaningBelowCapacity(c, maxSessions, user, now, newId);
    }
  }

  /** `AdmitMeaning` at capacity. */
  lemma AdmitMeaningAtCapacity(c: Table, maxSessions: int, user: Option<string>, now: int, newId: string)
    requires Consistent(c) && maxSessions >= 1 && |c.sessions| >= maxSessions
    ensures c.order != []
    ensures var r := Admit(c, maxSessions, user, now, newId);
      && r.0 == Ok(newId)
      && newId in r.1.sessions && r.1.sessions[newId] == NewSession(newId, user, now)
      && r.1.order != [] && r.1.order[|r.1.order| - 1] == newId
      && r.1.sessions.Keys == c.sessions.Keys - {Oldest(c.order, c.sessions)} + {newId}
  {
    var oldest, base := AdmitAtCapacity(c, maxSessions, user, now, newId);
    StoreKeys(c.sessions, {oldest}, newId, NewSession(newId, user, now));
  }

  /** `AdmitMeaning` below capacity. */
  lemma AdmitMeaningBelowCapacity(c: Table, maxSessions: int, user: Option<string>, now: int, newId: string)
    requires Consistent(c) && maxSessions >= 1 && |c.sessions| < maxSessions
    ensures var r := Admit(c, maxSessions, user, now, newId);
      && r.0 == Ok(newId)
      && newId in r.1.sessions && r.1.sessions[newId] == NewSession(newId, user, now)
      && r.1.order != [] && r.1.order[|r.1.order| - 1] == newId
      && r.1.sessions.Keys == c.sessions.Keys + {newId}
  {
    AdmitBelowCapacity(c, maxSessions, user, now, newId);
    StoreNewKey(c.sessions, newId, NewSession(newId, user, now));
  }

  /** The ids after storing under `id` into `m`. */
  lemma StoreNewKey(m: map<string, Session>, id: string, s: Session)
    ensures m[id := s].Keys == m.Keys + {id}
  {
  }

  /** The ids after storing under `id` into `m` less `gone`. */
  lemma StoreKeys(m: map<string, Session>, gone: set<string>, id: string, s: Session)
    ensures ((m - gone)[id := s]).Keys == m.Keys - gone + {id}
  {
  }

  /** Admission keeps every surviving session's dictionary and the relative
      order of the surviving ids, and appends the new id. */
  lemma AdmitFrame(c: Table, maxSessions: int, user: Option<string>, now: int, newId: string)
    requires Consistent(c) && maxSessions >= 1
    ensures AdmitKeepsOthers(c, Admit(c, maxSessions, user, now, newId).1, newId)
    ensures var r := Admit(c, maxSessions, user, now, newId);
      r.1.order == (if |c.sessions| >= maxSessions then Without(c.order, {Oldest(c.order, c.sessions)}) else c.order) + [newId]
  {
    var created := NewSession(newId, user, now);
    if |c.sessions| >= maxSessions {
      var oldest, _ := AdmitAtCapacity(c, maxSessions, user, now, newId);
      StoreKeepsOthers(c, {oldest}, newId, created);
    } else {
      AdmitBelowCapacity(c, maxSessions, user, now, newId);
    }
  }

  /** Every session of `r` other than `newId` is a session of `c`, unchanged. */
  predicate AdmitKeepsOthers(c: Table, r: Table, newId: string)
  {
    forall k :: k in r.sessions && k != newId ==> k in c.sessions && r.sessions[k] == c.sessions[k]
  }

  /** Storing under `newId` into the sessions of `c` less some ids keeps every other session of `c`. */
  lemma StoreKeepsOthers(c: Table, gone: set<string>, newId: string, s: Session)
    ensures AdmitKeepsOthers(c, Table((c.sessions - gone)[newId := s], []), newId)
  {
  }

  /** Below capacity, admission inserts into the table as it is. */
  lemma AdmitBelowCapacity(c: Table, maxSessions: int, user: Option<string>, now: int, newId: string)
    requires Consistent(c) && maxSessions >= 1 && |c.sessions| < maxSessions
    ensures var r := Admit(c, maxSessions, user, now, newId);
      && r.0 == Ok(newId)
      && r.1.sessions == c.sessions[newId := NewSession(newId, user, now)]
      && r.1.order == c.order + [newId]
  {
  }

  /** At capacity, admission inserts into the table without the session
      `min` picks. */
  lemma AdmitAtCapacity(c: Table, maxSessions: int, user: Option<string>, now: int, newId: string)
      returns (oldest: string, base: map<string, Session>)
    requires Consistent(c) && maxSessions >= 1 && |c.sessions| >= maxSessions
    ensures c.order != [] && oldest == Oldest(c.order, c.sessions) && base == c.sessions - {oldest}
    ensures var r := Admit(c, maxSessions, user, now, newId);
      && r.0 == Ok(newId)
      && r.1.sessions == base[newId := NewSession(newId, user, now)]
      && r.1.order == Without(c.order, {oldest}) + [newId]
  {
    OrderNonEmpty(c);
    oldest := Oldest(c.order, c.sessions);
    base := c.sessions - {oldest};
  }

  /** Admission keeps the table valid: in particular, with a positive
      capacity, the number of sessions never exceeds it. */
  lemma AdmitKeepsValid(c: Table, maxSessions: int, user: Option<string>, now: int, newId: string)
    requires ValidTable(c, maxSessions) && maxSessions >= 1 && newId !in c.sessions
    ensures ValidTable(Admit(c, maxSessions, user, now, newId).1, maxSessions)
  {
    var created := NewSession(newId, user, now);
    if |c.sessions| >= maxSessions {
      OrderNonEmpty(c);
      var oldest := Oldest(c.order, c.sessions);
      DropValid(c, {oldest}, maxSessions);
      InsertValid(Drop(c, {oldest}), maxSessions, newId, created);
    } else {
      InsertValid(c, maxSessions, newId, created);
    }
  }

  /** Creation keeps the table valid. */
  lemma CreateKeepsValid(t: Table, maxSessions: int, timeout: int, user: Option<string>, now: int, newId: string)
    requires ValidTable(t, maxSessions) && maxSessions >= 1 && newId !in t.sessions
    ensures ValidTable(Create(t, maxSessions, timeout, user, now, newId).1, maxSessions)
  {
    var e := Expired(t.sessions, t.order, now, timeout);
    if e.Ok? {
      DropValid(t, Elems(e.value), maxSessions);
      AdmitKeepsValid(Drop(t, Elems(e.value)), maxSessions, user, now, newId);
    }
  }

  /** Storing a well-formed session under an unused id keeps a table below
      its capacity valid. */
  lemma InsertValid(u: Table, maxSessions: int, id: string, s: Session)
    requires Consistent(u) && id !in u.sessions && WellFormed(id, s)
    requires maxSessions >= 1 ==> |u.sessions| < maxSessions
    ensures ValidTable(Insert(u, id, s), maxSessions)
  {
    var v := Insert(u, id, s);
    assert id !in u.order;
    assert |v.sessions| == |u.sessions| + 1;
    assert forall k :: k in v.sessions ==> WellFormed(k, v.sessions[k]);
    assert forall i :: 0 <= i < |u.order| ==> v.order[i] == u.order[i];
  }

  /** Creation fails exactly when some last access time is not a number,
      with the cleanup's TypeError and the table unchanged; otherwise it
      answers the new id. */
  lemma CreateFailure(t: Table, maxSessions: int, timeout: int, user: Option<string>, now: int, newId: string)
    requires Consistent(t) && maxSessions >= 1
    ensures var e := Expired(t.sessions, t.order, now, timeout);
      var r := Create(t, maxSessions, timeout, user, now, newId);
      && (r.0.Err? <==> e.Err?)
      && (e.Err? ==> r == (Err(e.error), t) && r.0.error.TypeError?)
      && (e.Ok? ==> r.0 == Ok(newId))
  {
  }

  /** A surviving session missing after creation is the one `min` chose. */
  lemma EvictionVictim(t: Table, maxSessions: int, timeout: int, user: Option<string>, now: int, newId: string, victim: string)
    requires Consistent(t) && maxSessions >= 1
    requires Expired(t.sessions, t.order, now, timeout).Ok?
    requires var c := Drop(t, Elems(Expired(t.sessions, t.order, now, timeout).value));
      victim in c.sessions && victim != newId
    requires victim !in Create(t, maxSessions, timeout, user, now, newId).1.sessions
    ensures var c := Drop(t, Elems(Expired(t.sessions, t.order, now, timeout).value));
      c.order != [] && victim == Oldest(c.order, c.sessions)
  {
    var c := Drop(t, Elems(Expired(t.sessions, t.order, now, timeout).value));
    DropValid(t, Elems(Expired(t.sessions, t.order, now, timeout).value), 0);
    OrderNonEmpty(c);
  }

  /** At capacity, the session evicted is one created no later than any
      surviving session. */
  lemma CreateEvictsOldest(t: Table, maxSessions: int, timeout: int, user: Option<string>, now: int, newId: string, victim: string)
    requires Consistent(t) && maxSessions >= 1 && newId !in t.sessions
    requires Expired(t.sessions, t.order, now, timeout).Ok?
    requires victim in t.sessions && !IsExpired(t.sessions[victim], now, timeout)
    requires victim !in Create(t, maxSessions, timeout, user, now, newId).1.sessions
    ensures forall k :: k in t.sessions && !IsExpired(t.sessions[k], now, timeout) ==>
              CreatedAt(t.sessions[victim]) <= CreatedAt(t.sessions[k])
  {
    var gone := Expired(t.sessions, t.order, now, timeout).value;
    var c := Drop(t, Elems(gone));
    DropValid(t, Elems(gone), 0);
    assert victim in c.sessions;
    EvictionVictim(t, maxSessions, timeout, user, now, newId, victim);
    OldestIsEarliest(c);
    assert forall k :: k in t.sessions && !IsExpired(t.sessions[k], now, timeout) ==> k in c.sessions;
  }

  /** The session `min` picks was created no later than any other. */
  lemma OldestIsEarliest(c: Table)
    requires Consistent(c) && c.order != []
    ensures forall k :: k in c.sessions ==>
              CreatedAt(c.sessions[Oldest(c.order, c.sessions)]) <= CreatedAt(c.sessions[k])
  {
    OldestIsFirstMinimum(c.order, c.sessions);
    forall k | k in c.sessions
      ensures CreatedAt(c.sessions[Oldest(c.order, c.sessions)]) <= CreatedAt(c.sessions[k])
    {
      var j :| 0 <= j < |c.order| && c.order[j] == k;
      assert CreationKey(c.sessions, k) == CreatedAt(c.sessions[k]);
    }
  }

  // ---------------------------------------------------------------------
  // Reads and merges

  /** `session["last_accessed"] = time.time()` */
  function Touch(t: Table, id: string, now: int): Table
    requires id in t.sessions
  {
    Table(t.sessions[id := t.sessions[id]["last_accessed" := JNum(now)]], t.order)
  }

  /** `base` with the keys of `data` outside `protected` overwritten or added. */
  function Merge(base: Session, data: Session, protected: set<string>): (r: Session)
    ensures forall k :: k in r <==> k in base || (k in data && k !in protected)
    ensures forall k :: k in data && k !in protected ==> r[k] == data[k]
    ensures forall k :: k in base && (k !in data || k in protected) ==> r[k] == base[k]
  {
    map k | k in base.Keys + (data.Keys - protected) :: if k in data && k !in protected then data[k] else base[k]
  }

  /** Without protected keys a merge is Python's `dict.update`. */
  lemma MergeIsUpdate(base: Session, data: Session)
    ensures Merge(base, data, {}) == base + data
  {
  }

  /** A merge never changes a protected key. */
  lemma MergeKeepsProtected(base: Session, data: Session, k: string)
    requires k in Protected
    ensures k in Merge(base, data, Protected) <==> k in base
    ensures k in base ==> Merge(base, data, Protected)[k] == base[k]
  {
  }

  /** The `for key, value in data.items()` loop of the merges. */
  method MergeKeys(base: Session, data: Session, protected: set<string>) returns (merged: Session)
    ensures merged == Merge(base, data, protected)
  {
    merged := base;
    var remaining := data.Keys;
    while remaining != {}
      invariant remaining <= data.Keys
      invariant merged == Merge(base, data - remaining, protected)
      decreases |remaining|
    {
      var k :| k in remaining;
      if k !in protected {
        merged := merged[k := data[k]];
      }
      remaining := remaining - {k};
    }
    assert data - remaining == data;
  }

  /** `update_session` on a present session. */
  function UpdateSpec(t: Table, id: string, data: Session, now: int): Table
    requires id in t.sessions
  {
    var u := Touch(t, id, now);
    Table(u.sessions[id := Merge(u.sessions[id], data, Protected)], u.order)
  }

  /** `update_session` refreshes the access time, then overwrites the given
      keys, but never `id` or `created_at`; a well-formed session stays so. */
  lemma UpdateMeaning(t: Table, id: string, data: Session, now: int)
    requires Consistent(t) && id in t.sessions
    ensures Consistent(UpdateSpec(t, id, data, now))
    ensures var s := UpdateSpec(t, id, data, now).sessions[id];
      && s["id"] == t.sessions[id]["id"] && s["created_at"] == t.sessions[id]["created_at"]
      && s["last_accessed"] == (if "last_accessed" in data then data["last_accessed"] else JNum(now))
      && (forall k :: k in data && k !in Protected ==> s[k] == data[k])
  {
    var u := Touch(t, id, now);
    MergeKeepsProtected(u.sessions[id], data, "id");
    MergeKeepsProtected(u.sessions[id], data, "created_at");
  }

  /** A merge that spares the protected keys keeps a session well formed. */
  lemma MergeWellFormed(id: string, s: Session, data: Session)
    requires WellFormed(id, s)
    ensures WellFormed(id, Merge(s, data, Protected))
  {
    MergeKeepsProtected(s, data, "id");
    MergeKeepsProtected(s, data, "created_at");
  }

  /** Updating a session keeps the table valid. */
  lemma UpdateValid(t: Table, id: string, data: Session, now: int, maxSessions: int)
    requires ValidTable(t, maxSessions) && id in t.sessions
    ensures ValidTable(UpdateSpec(t, id, data, now), maxSessions)
  {
    MergeWellFormed(id, t.sessions[id]["last_accessed" := JNum(now)], data);
    PutValid(t, id, Merge(t.sessions[id]["last_accessed" := JNum(now)], data, Protected), maxSessions);
  }

  // ---------------------------------------------------------------------
  // Tasks of a session

  /** The table with the session's `tasks` value replaced. */
  function SetTasks(t: Table, id: string, tasks: Json): Table
    requires id in t.sessions
  {
    Table(t.sessions[id := t.sessions[id]["tasks" := tasks]], t.order)
  }

  /** `add_task`: False for a missing session; otherwise the access time is
      refreshed and `session["tasks"][task_id] = task_info` stores `task_info` or
      raises when `tasks` is no longer a dictionary. */
  function AddTaskSpec(t: Table, id: string, taskId: string, info: Json, now: int): (r: (Result<bool>, Table))
    requires Consistent(t)
  {
    if id !in t.sessions then (Ok(false), t)
    else
      var u := Touch(t, id, now);
      match SetItem(u.sessions[id]["tasks"], taskId, info)
      case Err(e) => (Err(e), u)
      case Ok(tasks) => (Ok(true), SetTasks(u, id, tasks))
  }

  /** Adding a task answers False for a missing session, fails exactly when
      the session's `tasks` is not a dictionary, and otherwise stores the
      task in that session only. */
  lemma AddTaskMeaning(t: Table, id: string, taskId: string, info: Json, now: int)
    requires Consistent(t)
    ensures var r := AddTaskSpec(t, id, taskId, info, now);
      && (id !in t.sessions ==> r == (Ok(false), t))
      && r.1.sessions.Keys == t.sessions.Keys && r.1.order == t.order
      && (forall k :: k in t.sessions && k != id ==> r.1.sessions[k] == t.sessions[k])
      && (id in t.sessions ==> (r.0.Ok? <==> t.sessions[id]["tasks"].JObj?))
      && (r.0.Ok? && id in t.sessions ==>
            r.0 == Ok(true) && r.1.sessions[id] == t.sessions[id]["last_accessed" := JNum(now)]
                                 ["tasks" := JObj(t.sessions[id]["tasks"].fields[taskId := info])])
  {
    if id in t.sessions {
      var u := Touch(t, id, now);
      assert u.sessions[id]["tasks"] == t.sessions[id]["tasks"];
    }
  }

  /** `get_task`: None for a missing session; otherwise the access time is
      refreshed and `session["tasks"].get(task_id)` is the answer. */
  function GetTaskSpec(t: Table, id: string, taskId: string, now: int): (r: (Result<Option<Json>>, Table))
    requires Consistent(t)
  {
    if id !in t.sessions then (Ok(None), t)
    else
      var u := Touch(t, id, now);
      (Get(u.sessions[id]["tasks"], taskId), u)
  }

  /** Reading a task answers None for a missing session and otherwise
      Python's `get` on the session's `tasks`, refreshing only the access time:
      on a dictionary of tasks, the stored task exactly when `task_id` is a
      key, and an AttributeError when `tasks` is not a dictionary. Its
      partner, relating it to `add_task`, is `AddThenGetTask`. */
  lemma GetTaskMeaning(t: Table, id: string, taskId: string, now: int)
    requires Consistent(t)
    ensures var r := GetTaskSpec(t, id, taskId, now);
      && (id !in t.sessions ==> r == (Ok(None), t))
      && (id in t.sessions ==> r.0 == Get(t.sessions[id]["tasks"], taskId) && r.1 == Touch(t, id, now))
    ensures id in t.sessions ==>
      var tasks := t.sessions[id]["tasks"];
      && (GetTaskSpec(t, id, taskId, now).0.Err? <==> !tasks.JObj?)
      && (tasks.JObj? ==>
            GetTaskSpec(t, id, taskId, now).0 == Ok(if taskId in tasks.fields then Some(tasks.fields[taskId]) else None))
  {
  }

  /** The body of `update_task` on the session's `tasks` value: None when
      `task_id` is unknown, otherwise the new `tasks` value, or the exception.
      The lookups follow Python's `in` and `[]` on whatever `tasks` holds;
      with no keys to merge nothing is looked up. */
  function TaskUpdate(tasks: Json, taskId: string, info: Session): (r: Result<Option<Json>>)
  {
    match Contains(tasks, taskId)
    case Err(e) => Err(e)
    case Ok(present) =>
      if !present then Ok(None)
      else if info == map[] then Ok(Some(tasks))
      else
        match GetItem(tasks, taskId)
        case Err(e) => Err(e)
        case Ok(task) =>
          if !task.JObj? then Err(SetItemError(task))
          else Ok(Some(JObj(tasks.fields[taskId := JObj(Merge(task.fields, info, {}))])))
  }

  /** On a dictionary of tasks, an update finds nothing exactly for an
      unknown task; a known dictionary task gets the given keys
      overwritten and keeps the rest, and no other task changes. */
  lemma TaskUpdateMeaning(tasks: Json, taskId: string, info: Session)
    requires tasks.JObj?
    ensures var r := TaskUpdate(tasks, taskId, info);
      && (r == Ok(None) <==> taskId !in tasks.fields)
      && (taskId in tasks.fields && tasks.fields[taskId].JObj? ==>
            r == Ok(Some(JObj(tasks.fields[taskId := JObj(tasks.fields[taskId].fields + info)]))))
  {
    if taskId in tasks.fields && tasks.fields[taskId].JObj? {
      var task := tasks.fields[taskId];
      MergeIsUpdate(task.fields, info);
      if info == map[] {
        assert task.fields + info == task.fields;
        assert tasks.fields[taskId := task] == tasks.fields;
      }
    }
  }

  /** The body of `update_task` on the session's `tasks` value: the lookups
      in straight-line code, then the merge loop, which is `MergeKeys`. */
  method ApplyTaskUpdate(tasks: Json, taskId: string, info: Session) returns (r: Result<Option<Json>>)
    ensures r == TaskUpdate(tasks, taskId, info)
  {
    var present := Contains(tasks, taskId);
    if present.Err? {
      return Err(present.error);
    }
    if !present.value {
      return Ok(None);
    }
    if info == map[] {
      return Ok(Some(tasks));
    }
    var task := GetItem(tasks, taskId);
    if task.Err? {
      return Err(task.error);
    }
    if !task.value.JObj? {
      return Err(SetItemError(task.value));
    }
    var merged := MergeKeys(task.value.fields, info, {});
    r := Ok(Some(JObj(tasks.fields[taskId := JObj(merged)])));
  }

  /** `update_task`: False for a missing session; otherwise the access time
      is refreshed and the merged entry is stored when it succeeds. */
  function UpdateTaskSpec(t: Table, id: string, taskId: string, info: Session, now: int): (r: (Result<bool>, Table))
    requires Consistent(t)
  {
    if id !in t.sessions then (Ok(false), t)
    else
      var u := Touch(t, id, now);
      match TaskUpdate(u.sessions[id]["tasks"], taskId, info)
      case Err(e) => (Err(e), u)
      case Ok(None) => (Ok(false), u)
      case Ok(Some(tasks)) => (Ok(true), SetTasks(u, id, tasks))
  }

  /** `update_task` answers False exactly for a missing session or, on a
      dictionary of tasks, an unknown task; a known dictionary task is
      merged with the given keys in its own session only. */
  lemma UpdateTaskMeaning(t: Table, id: string, taskId: string, info: Session, now: int)
    requires Consistent(t) && id in t.sessions && t.sessions[id]["tasks"].JObj?
    ensures var r := UpdateTaskSpec(t, id, taskId, info, now);
      var tasks := t.sessions[id]["tasks"].fields;
      && (r.0 == Ok(false) <==> taskId !in tasks)
      && r.1.order == t.order && r.1.sessions.Keys == t.sessions.Keys
      && (forall k :: k in t.sessions && k != id ==> r.1.sessions[k] == t.sessions[k])
      && (taskId in tasks && tasks[taskId].JObj? ==>
            && r.0 == Ok(true)
            && r.1.sessions[id] == t.sessions[id]["last_accessed" := JNum(now)]
                                    ["tasks" := JObj(tasks[taskId := JObj(tasks[taskId].fields + info)])])
  {
    var u := Touch(t, id, now);
    assert u.sessions[id]["tasks"] == t.sessions[id]["tasks"];
    TaskUpdateMeaning(t.sessions[id]["tasks"], taskId, info);
  }

  /** Replacing a session by a well-formed one keeps the table valid. */
  lemma PutValid(t: Table, id: string, s: Session, maxSessions: int)
    requires ValidTable(t, maxSessions) && id in t.sessions && WellFormed(id, s)
    ensures ValidTable(Table(t.sessions[id := s], t.order), maxSessions)
  {
    var u := t.sessions[id := s];
    assert u.Keys == t.sessions.Keys;
    assert |u| == |u.Keys| == |t.sessions.Keys| == |t.sessions|;
  }

  /** Refreshing an access time keeps the table valid. */
  lemma TouchValid(t: Table, id: string, now: int, maxSessions: int)
    requires ValidTable(t, maxSessions) && id in t.sessions
    ensures ValidTable(Touch(t, id, now), maxSessions)
  {
    PutValid(t, id, t.sessions[id]["last_accessed" := JNum(now)], maxSessions);
  }

  /** Replacing a session's tasks keeps the table valid. */
  lemma SetTasksValid(t: Table, id: string, tasks: Json, maxSessions: int)
    requires ValidTable(t, maxSessions) && id in t.sessions
    ensures ValidTable(SetTasks(t, id, tasks), maxSessions)
  {
    PutValid(t, id, t.sessions[id]["tasks" := tasks], maxSessions);
  }

  /** Adding a task keeps the table valid. */
  lemma AddTaskValid(t: Table, id: string, taskId: string, info: Json, now: int, maxSessions: int)
    requires ValidTable(t, maxSessions)
    ensures ValidTable(AddTaskSpec(t, id, taskId, info, now).1, maxSessions)
  {
    if id in t.sessions {
      TouchValid(t, id, now, maxSessions);
      var u := Touch(t, id, now);
      var tasks := SetItem(u.sessions[id]["tasks"], taskId, info);
      if tasks.Ok? {
        SetTasksValid(u, id, tasks.value, maxSessions);
      }
    }
  }

  /** Updating a task keeps the table valid. */
  lemma UpdateTaskValid(t: Table, id: string, taskId: string, info: Session, now: int, maxSessions: int)
    requires ValidTable(t, maxSessions)
    ensures ValidTable(UpdateTaskSpec(t, id, taskId, info, now).1, maxSessions)
  {
    if id in t.sessions {
      TouchValid(t, id, now, maxSessions);
      var u := Touch(t, id, now);
      var o := TaskUpdate(u.sessions[id]["tasks"], taskId, info);
      if o.Ok? && o.value.Some? {
        SetTasksValid(u, id, o.value.value, maxSessions);
      }
    }
  }

  /** A task added to a session is what `get_task` then returns. */
  lemma AddThenGetTask(t: Table, id: string, taskId: string, info: Json, now: int, later: int)
    requires Consistent(t)
    requires AddTaskSpec(t, id, taskId, info, now).0 == Ok(true)
    ensures Consistent(AddTaskSpec(t, id, taskId, info, now).1)
    ensures GetTaskSpec(AddTaskSpec(t, id, taskId, info, now).1, id, taskId, later).0 == Ok(Some(info))
  {
    assert id in t.sessions;
    TouchValid(t, id, now, 0);
    var u := Touch(t, id, now);
    var tasks := SetItem(u.sessions[id]["tasks"], taskId, info);
    SetTasksValid(u, id, tasks.value, 0);
  }

  // ---------------------------------------------------------------------
  // Listing

  /** A listing row holds exactly the five listing keys, and echoes the
      session's `user_identifier`, `created_at` and `last_accessed`. */
  predicate Echoes(row: Session, s: Session)
  {
    && row.Keys == {"id", "user_identifier", "created_at", "last_accessed", "task_count"}
    && "user_identifier" in s && row["user_identifier"] == s["user_identifier"]
    && "created_at" in s && row["created_at"] == s["created_at"]
    && "last_accessed" in s && row["last_accessed"] == s["last_accessed"]
  }

  /** One entry of `list_sessions`, or the TypeError of `len` on `tasks`. */
  function Summary(id: string, s: Session): (r: Result<Session>)
    requires WellFormed(id, s)
    ensures r.Ok? <==> Len(s["tasks"]).Ok?
    ensures r.Ok? ==> "id" in r.value && r.value["id"] == JStr(id)
    ensures r.Ok? ==> "task_count" in r.value && r.value["task_count"] == JNum(Len(s["tasks"]).value)
    ensures r.Ok? ==> r.value.Keys == {"id", "user_identifier", "created_at", "last_accessed", "task_count"}
    ensures r.Ok? ==> && r.value["user_identifier"] == s["user_identifier"]
                      && r.value["created_at"] == s["created_at"]
                      && r.value["last_accessed"] == s["last_accessed"]
  {
    match Len(s["tasks"])
    case Err(e) => Err(e)
    case Ok(n) =>
      Ok(map["id" := JStr(id),
             "user_identifier" := s["user_identifier"],
             "created_at" := s["created_at"],
             "last_accessed" := s["last_accessed"],
             "task_count" := JNum(n)])
  }

  /** The comprehension of `list_sessions` over `ids`. */
  function Summaries(sessions: map<string, Session>, ids: seq<string>): (r: Result<seq<Session>>)
    requires forall k :: k in ids ==> k in sessions && WellFormed(k, sessions[k])
    ensures r.Ok? <==> forall i :: 0 <= i < |ids| ==> Summary(ids[i], sessions[ids[i]]).Ok?
    ensures r.Ok? ==> |r.value| == |ids|
    ensures r.Ok? ==> forall i :: 0 <= i < |ids| ==> r.value[i] == Summary(ids[i], sessions[ids[i]]).value
  {
    if ids == [] then Ok([])
    else
      var k := ids[|ids| - 1];
      var before := ids[..|ids| - 1];
      assert forall i :: 0 <= i < |before| ==> before[i] == ids[i];
      match Summaries(sessions, before)
      case Err(e) => Err(e)
      case Ok(init) =>
        match Summary(k, sessions[k])
        case Err(e) => Err(e)
        case Ok(entry) => Ok(init + [entry])
  }

  /** The listing fails exactly when some session's `tasks` has no length;
      otherwise it has one entry per session, in insertion order, with its
      id, the three echoed fields and the length of its `tasks`. */
  lemma ListingMeaning(t: Table)
    requires Consistent(t)
    ensures var r := Summaries(t.sessions, t.order);
      && (r.Ok? <==> forall k :: k in t.sessions ==> Len(t.sessions[k]["tasks"]).Ok?)
      && (r.Ok? ==> |r.value| == |t.order| && forall i :: 0 <= i < |t.order| ==>
            && "id" in r.value[i] && r.value[i]["id"] == JStr(t.order[i])
            && "task_count" in r.value[i] && r.value[i]["task_count"] == JNum(Len(t.sessions[t.order[i]]["tasks"]).value)
            && Echoes(r.value[i], t.sessions[t.order[i]]))
  {
    ListingSucceeds(t);
    if Summaries(t.sessions, t.order).Ok? {
      ListingEntries(t.sessions, t.order);
    }
  }

  /** The listing succeeds exactly when every session's `tasks` has a length. */
  lemma ListingSucceeds(t: Table)
    requires Consistent(t)
    ensures Summaries(t.sessions, t.order).Ok? <==> forall k :: k in t.sessions ==> Len(t.sessions[k]["tasks"]).Ok?
  {
    if forall k :: k in t.sessions ==> Len(t.sessions[k]["tasks"]).Ok? {
      assert forall i :: 0 <= i < |t.order| ==> Summary(t.order[i], t.sessions[t.order[i]]).Ok?;
    } else {
      var k :| k in t.sessions && Len(t.sessions[k]["tasks"]).Err?;
      var i :| 0 <= i < |t.order| && t.order[i] == k;
      assert Summary(t.order[i], t.sessions[t.order[i]]).Err?;
    }
  }

  /** Each entry of a successful listing names its session, echoes its three
      fields and counts its tasks. */
  lemma ListingEntries(sessions: map<string, Session>, ids: seq<string>)
    requires forall k :: k in ids ==> k in sessions && WellFormed(k, sessions[k])
    requires Summaries(sessions, ids).Ok?
    ensures var r := Summaries(sessions, ids).value;
      |r| == |ids| && forall i :: 0 <= i < |ids| ==>
        && "id" in r[i] && r[i]["id"] == JStr(ids[i])
        && "task_count" in r[i] && r[i]["task_count"] == JNum(Len(sessions[ids[i]]["tasks"]).value)
        && Echoes(r[i], sessions[ids[i]])
  {
    var r := Summaries(sessions, ids).value;
    forall i | 0 <= i < |ids|
      ensures "id" in r[i] && r[i]["id"] == JStr(ids[i])
      ensures "task_count" in r[i] && r[i]["task_count"] == JNum(Len(sessions[ids[i]]["tasks"]).value)
      ensures Echoes(r[i], sessions[ids[i]])
    {
      var e := Summary(ids[i], sessions[ids[i]]);
      assert r[i] == e.value;
    }
  }

  /** When every session's tasks are a dictionary, the listing has one entry
      per session, in insertion order, counting its tasks. */
  lemma ListingCountsTasks(t: Table)
    requires Consistent(t)
    requires forall k :: k in t.sessions ==> t.sessions[k]["tasks"].JObj?
    ensures var r := Summaries(t.sessions, t.order);
      && r.Ok? && |r.value| == |t.order|
      && forall i :: 0 <= i < |t.order| ==>
           r.value[i]["id"] == JStr(t.order[i])
           && r.value[i]["task_count"] == JNum(|t.sessions[t.order[i]]["tasks"].fields|)
  {
    ListingMeaning(t);
  }

  // ---------------------------------------------------------------------
  // The manager

  class SessionManager {
    var sessions: map<string, Session>
    /** The keys of `sessions` in insertion order. */
    var order: seq<string>
    const maxSessions: int
    const sessionTimeout: int

    /** The capacity is positive: a smaller `max_sessions` makes the
        constructor's thread pool raise ValueError, so no manager exists. */
    ghost predicate Valid()
      reads this
    {
      maxSessions >= 1 && ValidTable(Table(sessions, order), maxSessions)
    }

    constructor (maxSessions: int := 10, sessionTimeout: int := 3600)
      requires maxSessions >= 1
      ensures Valid()
      ensures sessions == map[] && order == []
      ensures this.maxSessions == maxSessions && this.sessionTimeout == sessionTimeout
    {
      this.maxSessions := maxSessions;
      this.sessionTimeout := sessionTimeout;
      sessions := map[];
      order := [];
    }

    /** `delete_session` */
    method DeleteSession(id: string) returns (deleted: bool)
      requires Valid()
      modifies this
      ensures Valid()
      ensures deleted == (id in old(sessions))
      ensures Table(sessions, order) == Drop(Table(old(sessions), old(order)), {id})
    {
      ghost var t := Table(sessions, order);
      DropValid(t, {id}, maxSessions);
      deleted := id in sessions;
      if deleted {
        sessions := sessions - {id};
        order := Without(order, {id});
      } else {
        DropAbsent(t, id);
      }
      assert Table(sessions, order) == Drop(t, {id});
    }

    /** The comprehension of `_cleanup_expired_sessions`: the ids, in
        order, of the sessions idle for longer than the timeout. */
    method ExpiredIds(now: int) returns (r: Result<seq<string>>)
      requires Valid()
      ensures r == Expired(sessions, order, now, sessionTimeout)
    {
      r := CollectExpired(sessions, order, now, sessionTimeout);
    }

    /** `_cleanup_expired_sessions`: delete the expired sessions one by one
        and return how many there were. */
    method CleanupExpiredSessions(now: int) returns (r: Result<nat>)
      requires Valid()
      modifies this
      ensures Valid()
      ensures var spec := Expired(old(sessions), old(order), now, sessionTimeout);
        && (spec.Err? ==> r == Err(spec.error) && sessions == old(sessions) && order == old(order))
        && (spec.Ok? ==> r == Ok(|spec.value|)
                         && Table(sessions, order) == Drop(Table(old(sessions), old(order)), Elems(spec.value)))
    {
      var expired := ExpiredIds(now);
      if expired.Err? {
        return Err(expired.error);
      }
      var gone := expired.value;
      DeleteAll(gone);
      DropEachIsDrop(Table(old(sessions), old(order)), gone);
      r := Ok(|gone|);
    }

    /** The deletion loop of `_cleanup_expired_sessions`. */
    method DeleteAll(gone: seq<string>)
      requires Valid()
      modifies this
      ensures Valid()
      ensures Table(sessions, order) == DropEach(Table(old(sessions), old(order)), gone)
    {
      ghost var start := Table(sessions, order);
      var j := 0;
      while j < |gone|
        invariant 0 <= j <= |gone|
        invariant Valid()
        invariant Table(sessions, order) == DropEach(start, gone[..j])
      {
        ghost var next := gone[..j + 1];
        assert next[..j] == gone[..j] && next[j] == gone[j];
        var _ := DeleteSession(gone[j]);
        j := j + 1;
      }
      assert gone[..j] == gone;
    }

    /** `create_session(user_identifier)` with the clock reading `now` and
        the new uuid `newId`. */
    method CreateSession(user: Option<string>, now: int, newId: string) returns (r: Result<string>)
      requires Valid() && newId !in sessions
      modifies this
      ensures Valid()
      ensures (r, Table(sessions, order))
           == Create(Table(old(sessions), old(order)), maxSessions, sessionTimeout, user, now, newId)
    {
      var cleaned := CleanupExpiredSessions(now);
      if cleaned.Err? {
        return Err(cleaned.error);
      }
      r := AdmitSession(user, now, newId);
    }

    /** The rest of `create_session`, after the cleanup: evict the session
        with the least creation time when at capacity, then store the new one. */
    method AdmitSession(user: Option<string>, now: int, newId: string) returns (r: Result<string>)
      requires Valid() && newId !in sessions
      modifies this
      ensures Valid()
      ensures (r, Table(sessions, order)) == Admit(Table(old(sessions), old(order)), maxSessions, user, now, newId)
    {
      AdmitKeepsValid(Table(sessions, order), maxSessions, user, now, newId);
      if |sessions| >= maxSessions {
        OrderNonEmpty(Table(sessions, order));
        var oldest := Oldest(order, sessions);
        var _ := DeleteSession(oldest);
      }
      sessions := sessions[newId := NewSession(newId, user, now)];
      order := order + [newId];
      r := Ok(newId);
    }

    /** `get_session`: the session with its access time refreshed, or None. */
    method GetSession(id: string, now: int) returns (r: Option<Session>)
      requires Valid()
      modifies this
      ensures Valid()
      ensures id !in old(sessions) ==> r == None && sessions == old(sessions) && order == old(order)
      ensures id in old(sessions) ==>
                && Table(sessions, order) == Touch(Table(old(sessions), old(order)), id, now)
                && r == Some(sessions[id])
      ensures r.Some? ==> WellFormed(id, r.value)
    {
      if id in sessions {
        PutSession(id, sessions[id]["last_accessed" := JNum(now)]);
        r := Some(sessions[id]);
      } else {
        r := None;
      }
    }

    /** `update_session` */
    method UpdateSession(id: string, data: Session, now: int) returns (updated: bool)
      requires Valid()
      modifies this
      ensures Valid()
      ensures updated == (id in old(sessions))
      ensures !updated ==> sessions == old(sessions) && order == old(order)
      ensures updated ==> Table(sessions, order) == UpdateSpec(Table(old(sessions), old(order)), id, data, now)
    {
      var session := GetSession(id, now);
      if session.None? {
        return false;
      }
      var merged := MergeKeys(session.value, data, Protected);
      MergeWellFormed(id, session.value, data);
      PutSession(id, merged);
      updated := true;
    }

    /** `add_task` */
    method AddTask(id: string, taskId: string, info: Json, now: int) returns (r: Result<bool>)
      requires Valid()
      modifies this
      ensures Valid()
      ensures (r, Table(sessions, order)) == AddTaskSpec(Table(old(sessions), old(order)), id, taskId, info, now)
    {
      var session := GetSession(id, now);
      if session.None? {
        return Ok(false);
      }
      var stored := SetItem(session.value["tasks"], taskId, info);
      if stored.Err? {
        return Err(stored.error);
      }
      PutSession(id, session.value["tasks" := stored.value]);
      r := Ok(true);
    }

    /** `get_task` */
    method GetTask(id: string, taskId: string, now: int) returns (r: Result<Option<Json>>)
      requires Valid()
      modifies this
      ensures Valid()
      ensures (r, Table(sessions, order)) == GetTaskSpec(Table(old(sessions), old(order)), id, taskId, now)
    {
      var session := GetSession(id, now);
      if session.None? {
        return Ok(None);
      }
      r := Get(session.value["tasks"], taskId);
    }

    /** `update_task` */
    method UpdateTask(id: string, taskId: string, info: Session, now: int) returns (r: Result<bool>)
      requires Valid()
      modifies this
      ensures Valid()
      ensures (r, Table(sessions, order)) == UpdateTaskSpec(Table(old(sessions), old(order)), id, taskId, info, now)
    {
      var session := GetSession(id, now);
      if session.None? {
        return Ok(false);
      }
      var outcome := ApplyTaskUpdate(session.value["tasks"], taskId, info);
      match outcome
      case Err(e) => r := Err(e);
      case Ok(None) => r := Ok(false);
      case Ok(Some(tasks)) =>
        PutSession(id, session.value["tasks" := tasks]);
        r := Ok(true);
    }

    /** Write a session's dictionary back; Python mutates it in place. */
    method PutSession(id: string, s: Session)
      requires Valid() && id in sessions && WellFormed(id, s)
      modifies this
      ensures Valid()
      ensures sessions == old(sessions)[id := s] && order == old(order)
    {
      PutValid(Table(sessions, order), id, s, maxSessions);
      sessions := sessions[id := s];
    }

    /** `list_sessions` */
    function ListSessions(): (r: Result<seq<Session>>)
      reads this
      requires Valid()
      ensures r.Ok? <==> forall k :: k in sessions ==> Len(sessions[k]["tasks"]).Ok?
      ensures r.Ok? ==> |r.value| == |order| && forall i :: 0 <= i < |order| ==>
                && "id" in r.value[i] && r.value[i]["id"] == JStr(order[i])
                && "task_count" in r.value[i] && r.value[i]["task_count"] == JNum(Len(sessions[order[i]]["tasks"]).value)
                && Echoes(r.value[i], sessions[order[i]])
    {
      ListingMeaning(Table(sessions, order));
      Summaries(sessions, order)
    }
  }

  lemma {:induction false} WithoutAbsent(order: seq<string>, id: string)
    requires id !in order
    ensures Without(order, {id}) == order
  {
    if order != [] {
      WithoutAbsent(order[1..], id);
      assert [order[0]] + order[1..] == order;
    }
  }

  /** Deleting an absent id changes nothing. */
  lemma DropAbsent(t: Table, id: string)
    requires id !in t.sessions && id !in t.order
    ensures Drop(t, {id}) == t
  {
    WithoutAbsent(t.order, id);
    assert t.sessions - {id} == t.sessions;
  }

  /** The table after deleting the ids of `gone` one at a time. */
  function DropEach(t: Table, gone: seq<string>): Table
  {
    if gone == [] then t else Drop(DropEach(t, gone[..|gone| - 1]), {gone[|gone| - 1]})
  }

  /** Deleting one at a time is deleting all at once. */
  lemma {:induction false} DropEachIsDrop(t: Table, gone: seq<string>)
    ensures DropEach(t, gone) == Drop(t, Elems(gone))
  {
    if gone == [] {
      assert Elems(gone) == {};
      assert t.sessions - {} == t.sessions;
      WithoutNothing(t.order);
    } else {
      var init := gone[..|gone| - 1];
      DropEachIsDrop(t, init);
      assert Elems(gone) == Elems(init) + {gone[|gone| - 1]};
      WithoutTwice(t.order, Elems(init), {gone[|gone| - 1]});
      assert (t.sessions - Elems(init)) - {gone[|gone| - 1]} == t.sessions - Elems(gone);
    }
  }

  lemma {:induction false} WithoutNothing(order: seq<string>)
    ensures Without(order, {}) == order
  {
    if order != [] {
      WithoutNothing(order[1..]);
      assert [order[0]] + order[1..] == order;
    }
  }
}
