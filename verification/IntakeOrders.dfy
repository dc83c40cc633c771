/** Which interleavings of intake requests equal a serial run in some order, not only in the order of finishing. */
module IntakeOrders {
  import opened Basics
  import opened Events
  import opened Intake
  import opened IntakeRuns
  import opened IntakeRaces
  import opened IntakeOutcomes

  /** The store and the replies are those of running the requests one by one in this order. */
  ghost predicate SerialIn(s: Store, cs: seq<Command>, sys: System, order: seq<nat>)
    requires |sys.phases| == |cs|
  {
    SerialInOrder(s, cs, sys.(order := order))
  }

  predicate Rearranges(a: seq<nat>, b: seq<nat>) {
    multiset(a) == multiset(b)
  }

  /** The run equals the serial run of its finished requests in some order, those that lost the race for their key
      left out. */
  ghost predicate Serializable(s: Store, cs: seq<Command>, sys: System)
    requires |sys.phases| == |cs|
  {
    exists order: seq<nat> :: Rearranges(order, sys.order) && SerialIn(s, cs, sys, order)
  }

  /** An upload is refused because its content is stored. */
  predicate RefusesContent(s: Store, c: Command, phase: Phase) {
    phase.ReadingContent? && CheckContent(s, c).Some?
  }

  /** An upload of the command would find its key free, its case present and its content stored. */
  ghost predicate Refusable(s: Store, c: Command) {
    && c.CreateUpload?
    && RequireKey(c.key).Some? && Stored(s, c).None?
    && FindCase(s.cases, c.tenant, c.forCase).Some?
    && CheckContent(s, c).Some?
  }

  /** By the k-th step, the case and the content of its request were both there while the key was still free. */
  ghost predicate HadRoom(s: Store, cs: seq<Command>, schedule: seq<nat>, k: nat)
    requires k < |schedule| && schedule[k] < |cs|
  {
    exists n: nat :: n <= k && Refusable(Execute(s, cs, schedule[..n]).store, cs[schedule[k]])
  }

  /** Every upload refused for its content had room to be. */
  ghost predicate RefusalsHadRoom(s: Store, cs: seq<Command>, schedule: seq<nat>) {
    forall k: nat :: k < |schedule| && At(RefusesContent, s, cs, schedule, k) ==> HadRoom(s, cs, schedule, k)
  }

  // ---- Putting a request that writes nothing into a serial run ----

  lemma RepliesSplit(replies: seq<Reply>, m: nat, x: Reply, reply: Reply)
    requires m <= |replies|
    ensures replies[..m] + [x] + replies[m..] + [reply]
         == (replies + [reply])[..m] + [x] + (replies + [reply])[m..]
  {
  }

  lemma {:induction false} RunSerialInsert(s: Store, a: seq<Command>, c: Command, b: seq<Command>)
    requires Serve(RunSerial(s, a).0, c).0 == RunSerial(s, a).0
    ensures var (store, replies) := RunSerial(s, a + b);
            RunSerial(s, a + [c] + b) == (store, replies[..|a|] + [Serve(RunSerial(s, a).0, c).1] + replies[|a|..])
  {
    if |b| == 0 {
      var replies, reply := RunSerial(s, a).1, Serve(RunSerial(s, a).0, c).1;
      RunSerialAppend(s, a, c);
      assert a + b == a && a + [c] + b == a + [c];
      assert replies[..|a|] + [reply] + replies[|a|..] == replies + [reply];
    } else {
      var front, last := b[..|b| - 1], b[|b| - 1];
      var (store, replies) := RunSerial(s, a + front);
      RunSerialInsert(s, a, c, front);
      RunSerialAppend(s, a + front, last);
      RunSerialAppend(s, a + [c] + front, last);
      RepliesSplit(replies, |a|, Serve(RunSerial(s, a).0, c).1, Serve(store, last).1);
      assert a + b == a + front + [last] && a + [c] + b == a + [c] + front + [last];
    }
  }

  ghost predicate Known(cs: seq<Command>, order: seq<nat>) {
    forall k :: 0 <= k < |order| ==> order[k] < |cs|
  }

  function StoreAt(s: Store, cs: seq<Command>, order: seq<nat>, m: nat): Store
    requires Known(cs, order) && m <= |order|
  {
    RunSerial(s, Select(cs, order[..m])).0
  }

  function Inserted(order: seq<nat>, m: nat, i: nat): seq<nat>
    requires m <= |order|
  {
    order[..m] + [i] + order[m..]
  }

  lemma InsertedSelect(cs: seq<Command>, order: seq<nat>, m: nat, i: nat)
    requires Known(cs, order) && m <= |order| && i < |cs|
    ensures Known(cs, Inserted(order, m, i))
    ensures Select(cs, Inserted(order, m, i)) == Select(cs, order[..m]) + [cs[i]] + Select(cs, order[m..])
    ensures Select(cs, order) == Select(cs, order[..m]) + Select(cs, order[m..])
    ensures Rearranges(Inserted(order, m, i), order + [i])
  {
    assert order == order[..m] + order[m..];
  }

  lemma InsertReader(s: Store, cs: seq<Command>, order: seq<nat>, m: nat, i: nat)
    requires Known(cs, order) && m <= |order| && i < |cs|
    requires var store := StoreAt(s, cs, order, m); Serve(store, cs[i]).0 == store
    ensures Known(cs, Inserted(order, m, i))
    ensures var (store, replies) := RunSerial(s, Select(cs, order));
            RunSerial(s, Select(cs, Inserted(order, m, i))) ==
            (store, replies[..m] + [Serve(StoreAt(s, cs, order, m), cs[i]).1] + replies[m..])
  {
    InsertedSelect(cs, order, m, i);
    RunSerialInsert(s, Select(cs, order[..m]), cs[i], Select(cs, order[m..]));
  }

  /** Prefixes of the longer order pass through the same stores. */
  lemma InsertedPrefix(s: Store, cs: seq<Command>, order: seq<nat>, m: nat, i: nat, l: nat)
    requires Known(cs, order) && m <= |order| && i < |cs| && l <= |order|
    requires var store := StoreAt(s, cs, order, m); Serve(store, cs[i]).0 == store
    ensures Known(cs, Inserted(order, m, i))
    ensures StoreAt(s, cs, Inserted(order, m, i), if l <= m then l else l + 1) == StoreAt(s, cs, order, l)
  {
    InsertedSelect(cs, order, m, i);
    if l <= m {
      assert Inserted(order, m, i)[..l] == order[..l];
    } else {
      assert order[..l][..m] == order[..m];
      assert Inserted(order, m, i)[..l + 1] == Inserted(order[..l], m, i);
      InsertReader(s, cs, order[..l], m, i);
    }
  }

  // ---- Building the order ----

  ghost predicate Passes(s: Store, cs: seq<Command>, order: seq<nat>, store: Store)
    requires Known(cs, order)
  {
    exists m: nat :: m <= |order| && StoreAt(s, cs, order, m) == store
  }

  /** The serial run in this order passes through every store of the interleaved run. */
  ghost predicate Covers(s: Store, cs: seq<Command>, schedule: seq<nat>, order: seq<nat>) {
    && Known(cs, order)
    && forall n :: 0 <= n <= |schedule| ==> Passes(s, cs, order, Execute(s, cs, schedule[..n]).store)
  }

  ghost predicate Arranged(s: Store, cs: seq<Command>, schedule: seq<nat>, order: seq<nat>) {
    var sys := Execute(s, cs, schedule);
    && Rearranges(order, sys.order)
    && SerialIn(s, cs, sys, order)
    && Covers(s, cs, schedule, order)
  }

  lemma PassesInserted(s: Store, cs: seq<Command>, order: seq<nat>, m: nat, i: nat, store: Store)
    requires Known(cs, order) && m <= |order| && i < |cs| && Passes(s, cs, order, store)
    requires var before := StoreAt(s, cs, order, m); Serve(before, cs[i]).0 == before
    ensures Known(cs, Inserted(order, m, i)) && Passes(s, cs, Inserted(order, m, i), store)
  {
    var l: nat :| l <= |order| && StoreAt(s, cs, order, l) == store;
    InsertedPrefix(s, cs, order, m, i, l);
  }

  lemma PassesAppended(s: Store, cs: seq<Command>, order: seq<nat>, i: nat, store: Store)
    requires Known(cs, order) && i < |cs| && Passes(s, cs, order, store)
    ensures Passes(s, cs, order + [i], store)
  {
    var l: nat :| l <= |order| && StoreAt(s, cs, order, l) == store;
    assert (order + [i])[..l] == order[..l];
    assert StoreAt(s, cs, order + [i], l) == store;
  }

  /** The stores of the longer run are those of the shorter one and the last. */
  lemma CoversNext(s: Store, cs: seq<Command>, schedule: seq<nat>, order: seq<nat>)
    requires |schedule| > 0 && Known(cs, order)
    requires Covers(s, cs, schedule[..|schedule| - 1], order)
    requires Passes(s, cs, order, Execute(s, cs, schedule).store)
    ensures Covers(s, cs, schedule, order)
  {
    forall n | 0 <= n <= |schedule| ensures Passes(s, cs, order, Execute(s, cs, schedule[..n]).store) {
      if n == |schedule| {
        assert schedule[..n] == schedule;
      } else {
        assert schedule[..|schedule| - 1][..n] == schedule[..n];
      }
    }
  }

  lemma EndPasses(s: Store, cs: seq<Command>, order: seq<nat>)
    requires Known(cs, order)
    ensures Passes(s, cs, order, RunSerial(s, Select(cs, order)).0)
  {
    assert order[..|order|] == order;
    assert StoreAt(s, cs, order, |order|) == RunSerial(s, Select(cs, order)).0;
  }

  lemma ArrangeQuiet(s: Store, cs: seq<Command>, schedule: seq<nat>, order: seq<nat>)
    requires |schedule| > 0 && Arranged(s, cs, schedule[..|schedule| - 1], order)
    requires var before, sys := Execute(s, cs, schedule[..|schedule| - 1]), Execute(s, cs, schedule);
             sys.order == before.order && sys.store == before.store
    ensures Arranged(s, cs, schedule, order)
  {
    var n := |schedule| - 1;
    var before, sys := Execute(s, cs, schedule[..n]), Execute(s, cs, schedule);
    if schedule[n] < |cs| { StepKeepsFinished(cs, before, schedule[n]); }
    SerialUnchanged(s, cs, before.(order := order), sys.(order := order));
    EndPasses(s, cs, order);
    CoversNext(s, cs, schedule, order);
  }

  lemma ArrangeLast(s: Store, cs: seq<Command>, schedule: seq<nat>, order: seq<nat>)
    requires |schedule| > 0 && schedule[|schedule| - 1] < |cs|
    requires Arranged(s, cs, schedule[..|schedule| - 1], order)
    requires var i := schedule[|schedule| - 1];
             var before, sys := Execute(s, cs, schedule[..|schedule| - 1]), Execute(s, cs, schedule);
             && sys.order == before.order + [i] && !before.phases[i].Finished?
             && (sys.store, sys.phases[i]) == (Serve(before.store, cs[i]).0, Finished(Serve(before.store, cs[i]).1))
    ensures Arranged(s, cs, schedule, order + [schedule[|schedule| - 1]])
  {
    var n := |schedule| - 1;
    var i := schedule[n];
    var before, sys := Execute(s, cs, schedule[..n]), Execute(s, cs, schedule);
    SerialExtended(s, cs, before.(order := order), sys.(order := order + [i]), i);
    forall k | 0 <= k <= n ensures Passes(s, cs, order + [i], Execute(s, cs, schedule[..n][..k]).store) {
      PassesAppended(s, cs, order, i, Execute(s, cs, schedule[..n][..k]).store);
    }
    EndPasses(s, cs, order + [i]);
    CoversNext(s, cs, schedule, order + [i]);
  }

  lemma InsertedAt(order: seq<nat>, replies: seq<Reply>, m: nat, i: nat, reply: Reply, k: nat)
    requires m <= |order| == |replies| && k <= |order|
    ensures var at := (Inserted(order, m, i)[k], (replies[..m] + [reply] + replies[m..])[k]);
            at == if k < m then (order[k], replies[k])
                  else if k == m then (i, reply)
                  else (order[k - 1], replies[k - 1])
  {
  }

  lemma SerialInserted(s: Store, cs: seq<Command>, before: System, sys: System, order: seq<nat>, m: nat, i: nat)
    requires |before.phases| == |cs| == |sys.phases| && i < |cs| && m <= |order|
    requires SerialIn(s, cs, before, order) && sys.store == before.store && !before.phases[i].Finished?
    requires forall j :: 0 <= j < |cs| && before.phases[j].Finished? ==> sys.phases[j] == before.phases[j]
    requires var store := StoreAt(s, cs, order, m);
             Serve(store, cs[i]).0 == store && sys.phases[i] == Finished(Serve(store, cs[i]).1)
    ensures SerialIn(s, cs, sys, Inserted(order, m, i))
  {
    var order', replies := Inserted(order, m, i), RunSerial(s, Select(cs, order)).1;
    InsertReader(s, cs, order, m, i);
    var reply := Serve(StoreAt(s, cs, order, m), cs[i]).1;
    forall k | 0 <= k < |order'|
      ensures sys.phases[order'[k]] == Finished((replies[..m] + [reply] + replies[m..])[k])
    {
      InsertedAt(order, replies, m, i, reply, k);
      if k != m {
        var l := if k < m then k else k - 1;
        assert before.phases[order[l]] == Finished(replies[l]);
      }
    }
  }

  /** A request that finishes without writing is put where its reply was the right one. */
  lemma ArrangeEarlier(s: Store, cs: seq<Command>, schedule: seq<nat>, order: seq<nat>, n: nat)
    returns (order': seq<nat>)
    requires |schedule| > 0 && schedule[|schedule| - 1] < |cs| && n < |schedule|
    requires Arranged(s, cs, schedule[..|schedule| - 1], order)
    requires var i := schedule[|schedule| - 1];
             var before, sys := Execute(s, cs, schedule[..|schedule| - 1]), Execute(s, cs, schedule);
             var store := Execute(s, cs, schedule[..n]).store;
             && sys.order == before.order + [i] && !before.phases[i].Finished? && sys.store == before.store
             && (store, sys.phases[i]) == (Serve(store, cs[i]).0, Finished(Serve(store, cs[i]).1))
    ensures Arranged(s, cs, schedule, order')
  {
    var last := |schedule| - 1;
    var i := schedule[last];
    var before, sys := Execute(s, cs, schedule[..last]), Execute(s, cs, schedule);
    assert schedule[..last][..n] == schedule[..n];
    assert Passes(s, cs, order, Execute(s, cs, schedule[..last][..n]).store);
    var m: nat :| m <= |order| && StoreAt(s, cs, order, m) == Execute(s, cs, schedule[..n]).store;
    order' := Inserted(order, m, i);
    StepKeepsFinished(cs, before, i);
    InsertedSelect(cs, order, m, i);
    SerialInserted(s, cs, before, sys, order, m, i);
    forall k | 0 <= k <= last ensures Passes(s, cs, order', Execute(s, cs, schedule[..last][..k]).store) {
      PassesInserted(s, cs, order, m, i, Execute(s, cs, schedule[..last][..k]).store);
    }
    EndPasses(s, cs, order');
    CoversNext(s, cs, schedule, order');
  }

  // ---- Where a late refusal belongs ----

  /** A request past its key check found no record when it made it, so none was there at the start. */
  lemma {:induction false} KeyWasFree(s: Store, cs: seq<Command>, schedule: seq<nat>, i: nat)
    requires i < |cs|
    requires var phase := Execute(s, cs, schedule).phases[i]; !phase.ReadingKey? && !phase.Finished?
    ensures RequireKey(cs[i].key).Some? && Stored(s, cs[i]).None?
  {
    var n := |schedule| - 1;
    var before := Execute(s, cs, schedule[..n]);
    if before.phases[i].ReadingKey? {
      if Stored(s, cs[i]).Some? {
        var none: seq<nat> := [];
        RecordOutlivesRaces(s, cs, none, schedule[..n], cs[i].tenant, RequireKey(cs[i].key).value);
        assert none + schedule[..n] == schedule[..n];
      }
      KeyRead(before, cs, i);
    } else {
      KeyWasFree(s, cs, schedule[..n], i);
    }
  }

  lemma {:induction false} CaseOutlives(s: Store, cs: seq<Command>, schedule: seq<nat>, tenant: string, id: string)
    requires FindCase(s.cases, tenant, id).Some?
    ensures FindCase(Execute(s, cs, schedule).store.cases, tenant, id).Some?
  {
    if |schedule| == 0 {
    } else {
      var n := |schedule| - 1;
      CaseOutlives(s, cs, schedule[..n], tenant, id);
      var i, before := schedule[n], Execute(s, cs, schedule[..n]);
      if i < |cs| && cs[i].CreateCase? {
        FindCaseOfAppend(before.store.cases, CaseRowOf(cs[i]), tenant, id);
      }
    }
  }

  lemma {:induction false} ContentOutlives(s: Store, cs: seq<Command>, schedule: seq<nat>, n: nat, c: Command)
    requires n <= |schedule| && c.CreateUpload? && ContentOf(Execute(s, cs, schedule[..n]), c).Some?
    ensures ContentOf(Execute(s, cs, schedule), c) == ContentOf(Execute(s, cs, schedule[..n]), c)
  {
    if n == |schedule| {
      assert schedule[..n] == schedule;
    } else {
      var m := |schedule| - 1;
      var i, before := schedule[m], Execute(s, cs, schedule[..m]);
      assert schedule[..m][..n] == schedule[..n];
      ContentOutlives(s, cs, schedule[..m], n, c);
      if i < |cs| && cs[i].CreateUpload? {
        FindContentOfAppend(before.store.versions, VersionRowOf(cs[i]), c.tenant, c.document.sha256);
      }
    }
  }

  lemma RefusableServed(s: Store, c: Command)
    requires Refusable(s, c)
    ensures Serve(s, c) == (s, CheckContent(s, c).value)
  {
  }

  lemma CaseMissingServed(s: Store, cs: seq<Command>, schedule: seq<nat>, i: nat)
    requires i < |cs| && Execute(s, cs, schedule).phases[i].ReadingCase? && cs[i].CreateUpload?
    requires CheckCase(Execute(s, cs, schedule).store, cs[i]).Some?
    ensures Serve(s, cs[i]) == (s, CaseMissing)
  {
    KeyWasFree(s, cs, schedule, i);
    if FindCase(s.cases, cs[i].tenant, cs[i].forCase).Some? {
      CaseOutlives(s, cs, schedule, cs[i].tenant, cs[i].forCase);
    }
  }

  /** A late refusal was the right reply at some earlier store of the run. */
  lemma LateRefusalPlace(s: Store, cs: seq<Command>, schedule: seq<nat>) returns (n: nat)
    requires |schedule| > 0 && RefusalsHadRoom(s, cs, schedule)
    requires var last := |schedule| - 1; At(LateRefusal, s, cs, schedule, last)
    ensures n < |schedule|
    ensures var last := |schedule| - 1;
            var before, i := Execute(s, cs, schedule[..last]), schedule[last];
            var store := Execute(s, cs, schedule[..n]).store;
            && Serve(store, cs[i]).0 == store
            && Finished(Serve(store, cs[i]).1) == NextPhase(before.store, cs[i], before.phases[i])
  {
    var last := |schedule| - 1;
    var i, before := schedule[last], Execute(s, cs, schedule[..last]);
    SerialIffNothingOutdated(s, cs, schedule[..last]);
    if before.phases[i].ReadingCase? {
      n := 0;
      CaseMissingServed(s, cs, schedule[..last], i);
    } else {
      assert At(RefusesContent, s, cs, schedule, last) && HadRoom(s, cs, schedule, last);
      n :| n <= last && Refusable(Execute(s, cs, schedule[..n]).store, cs[i]);
      RefusableServed(Execute(s, cs, schedule[..n]).store, cs[i]);
      assert schedule[..last][..n] == schedule[..n];
      ContentOutlives(s, cs, schedule[..last], n, cs[i]);
    }
  }

  lemma RoomInPrefix(s: Store, cs: seq<Command>, schedule: seq<nat>)
    requires |schedule| > 0 && RefusalsHadRoom(s, cs, schedule)
    ensures RefusalsHadRoom(s, cs, schedule[..|schedule| - 1])
  {
    var front := schedule[..|schedule| - 1];
    forall k: nat | k < |front| && At(RefusesContent, s, cs, front, k) ensures HadRoom(s, cs, front, k) {
      assert front[..k] == schedule[..k];
      assert At(RefusesContent, s, cs, schedule, k);
      var n: nat :| n <= k && Refusable(Execute(s, cs, schedule[..n]).store, cs[schedule[k]]);
      assert front[..n] == schedule[..n];
    }
  }

  lemma NothingArranged(s: Store, cs: seq<Command>)
    ensures Arranged(s, cs, [], [])
  {
    var none: seq<nat> := [];
    assert Select(cs, none) == [];
    assert none[..0] == none && StoreAt(s, cs, none, 0) == s;
    forall n | 0 <= n <= 0 ensures Passes(s, cs, none, Execute(s, cs, none[..n]).store) {
      assert none[..n] == none;
    }
  }

  lemma ArrangeStep(s: Store, cs: seq<Command>, schedule: seq<nat>, order: seq<nat>) returns (order': seq<nat>)
    requires |schedule| > 0 && schedule[|schedule| - 1] < |cs|
    requires RefusalsHadRoom(s, cs, schedule) && !At(StaleCommit, s, cs, schedule, |schedule| - 1)
    requires Arranged(s, cs, schedule[..|schedule| - 1], order)
    ensures Arranged(s, cs, schedule, order')
  {
    var last := |schedule| - 1;
    var i, before := schedule[last], Execute(s, cs, schedule[..last]);
    order' := order;
    SerialIffNothingOutdated(s, cs, schedule[..last]);
    FinishingStepIsServe(before, cs, i);
    if Execute(s, cs, schedule).order == before.order {
      ArrangeQuiet(s, cs, schedule, order);
    } else if LateRefusal(before.store, cs[i], before.phases[i]) {
      var n := LateRefusalPlace(s, cs, schedule);
      order' := ArrangeEarlier(s, cs, schedule, order, n);
    } else {
      order' := order + [i];
      ArrangeLast(s, cs, schedule, order);
    }
  }

  lemma {:induction false} OrderExists(s: Store, cs: seq<Command>, schedule: seq<nat>) returns (order: seq<nat>)
    requires !Somewhere(StaleCommit, s, cs, schedule) && RefusalsHadRoom(s, cs, schedule)
    ensures Arranged(s, cs, schedule, order)
  {
    if |schedule| == 0 {
      order := [];
      NothingArranged(s, cs);
      assert schedule == [];
    } else {
      var last := |schedule| - 1;
      var i, before := schedule[last], Execute(s, cs, schedule[..last]);
      SomewhereSplit(StaleCommit, s, cs, schedule);
      RoomInPrefix(s, cs, schedule);
      order := OrderExists(s, cs, schedule[..last]);
      if i >= |cs| {
        ArrangeQuiet(s, cs, schedule, order);
      } else {
        order := ArrangeStep(s, cs, schedule, order);
      }
    }
  }

  // ---- The store after so many writes is the same in both runs ----

  function CaseRecords(records: seq<RecordRow>): nat {
    if |records| == 0 then 0
    else CaseRecords(records[..|records| - 1]) + (if records[|records| - 1].resourceType == "case" then 1 else 0)
  }

  /** The tables of b continue those of a, with one case or one document and version a record. */
  ghost predicate Later(a: Store, b: Store) {
    && a.cases <= b.cases && a.documents <= b.documents && a.versions <= b.versions
    && a.records <= b.records && a.outbox <= b.outbox && a.audit <= b.audit
    && |b.cases| - |a.cases| == CaseRecords(b.records) - CaseRecords(a.records)
    && |b.documents| - |a.documents| == |b.versions| - |a.versions|
    && |b.cases| - |a.cases| + |b.versions| - |a.versions| == |b.records| - |a.records|
    && |b.outbox| - |a.outbox| == |b.audit| - |a.audit| == |b.records| - |a.records|
  }

  lemma WriteIsLater(s: Store, c: Command)
    requires RequireKey(c.key).Some?
    ensures Later(s, Write(s, c)) && |Write(s, c).records| == |s.records| + 1
  {
    var s' := Write(s, c);
    assert s'.records[..|s'.records| - 1] == s.records;
  }

  lemma LaterTransitive(a: Store, b: Store, c: Store)
    requires Later(a, b) && Later(b, c)
    ensures Later(a, c)
  {
  }

  /** Between the same two stores, the number of records says which store it is. */
  lemma LaterDetermined(s: Store, a: Store, b: Store, end: Store)
    requires Later(s, a) && Later(a, end) && Later(s, b) && Later(b, end)
    requires |a.records| == |b.records|
    ensures a == b
  {
    assert a.records == end.records[..|a.records|] == b.records;
    assert a.cases == end.cases[..|a.cases|] == b.cases;
    assert a.documents == end.documents[..|a.documents|] == b.documents;
    assert a.versions == end.versions[..|a.versions|] == b.versions;
    assert a.outbox == end.outbox[..|a.outbox|] == b.outbox;
    assert a.audit == end.audit[..|a.audit|] == b.audit;
  }

  lemma {:induction false} ExecuteLater(s: Store, cs: seq<Command>, schedule: seq<nat>, n: nat)
    requires n <= |schedule|
    ensures Later(Execute(s, cs, schedule[..n]).store, Execute(s, cs, schedule).store)
  {
    if n == |schedule| {
      assert schedule[..n] == schedule;
    } else {
      var m := |schedule| - 1;
      var i, before := schedule[m], Execute(s, cs, schedule[..m]);
      assert schedule[..m][..n] == schedule[..n];
      ExecuteLater(s, cs, schedule[..m], n);
      if i < |cs| && Commits(before.store, cs[i], before.phases[i]) {
        WriteIsLater(before.store, cs[i]);
        LaterTransitive(Execute(s, cs, schedule[..n]).store, before.store, Execute(s, cs, schedule).store);
      }
    }
  }

  lemma {:induction false} SerialLater(s: Store, cs: seq<Command>, m: nat)
    requires m <= |cs|
    ensures Later(RunSerial(s, cs[..m]).0, RunSerial(s, cs).0)
  {
    if m == |cs| {
      assert cs[..m] == cs;
    } else {
      var n := |cs| - 1;
      var before := RunSerial(s, cs[..n]).0;
      assert cs[..n][..m] == cs[..m];
      SerialLater(s, cs[..n], m);
      RefusalsChangeNothing(before, cs[n]);
      if Serve(before, cs[n]).0 != before {
        WriteIsLater(before, cs[n]);
        LaterTransitive(RunSerial(s, cs[..m]).0, before, RunSerial(s, cs).0);
      }
    }
  }

  lemma ServeAddsOne(s: Store, c: Command)
    ensures |s.records| <= |Serve(s, c).0.records| <= |s.records| + 1
  {
    RefusalsChangeNothing(s, c);
  }

  lemma SerialStep(s: Store, cs: seq<Command>, m: nat)
    requires m < |cs|
    ensures RunSerial(s, cs[..m + 1]).0 == Serve(RunSerial(s, cs[..m]).0, cs[m]).0
  {
    assert cs[..m + 1][..m] == cs[..m];
  }

  /** The number of records grows by at most one a request, so every number in between is met: here by the last
      store with that many. */
  lemma {:induction false} LastWith(s: Store, cs: seq<Command>, count: nat, n: nat) returns (m: nat)
    requires n <= |cs| && |s.records| <= count < |RunSerial(s, cs[..n]).0.records|
    ensures m < n && |RunSerial(s, cs[..m]).0.records| == count
    ensures |RunSerial(s, cs[..m + 1]).0.records| == count + 1
    decreases n
  {
    if n == 0 {
      assert false;
    } else {
      SerialStep(s, cs, n - 1);
      ServeAddsOne(RunSerial(s, cs[..n - 1]).0, cs[n - 1]);
      if |RunSerial(s, cs[..n - 1]).0.records| > count {
        m := LastWith(s, cs, count, n - 1);
      } else {
        m := n - 1;
      }
    }
  }

  lemma {:induction false} FirstWith(s: Store, cs: seq<Command>, schedule: seq<nat>, count: nat) returns (n: nat)
    requires |s.records| <= count <= |Execute(s, cs, schedule).store.records|
    ensures n <= |schedule| && |Execute(s, cs, schedule[..n]).store.records| == count
  {
    if |schedule| == 0 || |Execute(s, cs, schedule).store.records| == count {
      n := |schedule|;
      assert schedule[..n] == schedule;
    } else {
      var last := |schedule| - 1;
      n := FirstWith(s, cs, schedule[..last], count);
      assert schedule[..last][..n] == schedule[..n];
    }
  }

  /** The serial run and the interleaved run, ending in the same store, agree on every store in between. */
  lemma SameStores(s: Store, cs: seq<Command>, schedule: seq<nat>, serial: seq<Command>, n: nat, m: nat)
    requires n <= |schedule| && m <= |serial|
    requires RunSerial(s, serial).0 == Execute(s, cs, schedule).store
    requires |RunSerial(s, serial[..m]).0.records| == |Execute(s, cs, schedule[..n]).store.records|
    ensures RunSerial(s, serial[..m]).0 == Execute(s, cs, schedule[..n]).store
  {
    var a, b := RunSerial(s, serial[..m]).0, Execute(s, cs, schedule[..n]).store;
    ExecuteLater(s, cs, schedule, n);
    ExecuteLater(s, cs, schedule[..n], 0);
    SerialLater(s, serial, m);
    SerialLater(s, serial[..m], 0);
    LaterDetermined(s, a, b, RunSerial(s, serial).0);
  }

  // ---- Nothing else can be serial ----

  lemma SerialWriteNew(s: Store, c: Command, c': Command)
    requires c.CreateUpload? && Serve(s, c').0.versions == s.versions + [VersionRowOf(c)]
    ensures FindContent(s.versions, c.tenant, c.document.sha256).None?
  {
    RefusalsChangeNothing(s, c');
    assert Serve(s, c').0 == Write(s, c');
    assert c'.CreateUpload?;
    assert (s.versions + [VersionRowOf(c)])[|s.versions|] == (s.versions + [VersionRowOf(c')])[|s.versions|];
  }

  /** Where the interleaved run writes, the serial run writes the same. */
  lemma SerialWritesThere(s: Store, cs: seq<Command>, schedule: seq<nat>, serial: seq<Command>, k: nat)
    returns (m: nat)
    requires RunSerial(s, serial).0 == Execute(s, cs, schedule).store && k < |schedule|
    requires |Execute(s, cs, schedule[..k + 1]).store.records| == |Execute(s, cs, schedule[..k]).store.records| + 1
    ensures m < |serial|
    ensures Serve(Execute(s, cs, schedule[..k]).store, serial[m]).0 == Execute(s, cs, schedule[..k + 1]).store
  {
    ExecuteLater(s, cs, schedule[..k], 0);
    ExecuteLater(s, cs, schedule, k + 1);
    assert serial[..|serial|] == serial;
    m := LastWith(s, serial, |Execute(s, cs, schedule[..k]).store.records|, |serial|);
    SameStores(s, cs, schedule, serial, k, m);
    SameStores(s, cs, schedule, serial, k + 1, m + 1);
    SerialStep(s, serial, m);
  }

  lemma NoStaleCommit(s: Store, cs: seq<Command>, schedule: seq<nat>, serial: seq<Command>, k: nat)
    requires RunSerial(s, serial).0 == Execute(s, cs, schedule).store && k < |schedule|
    ensures !At(StaleCommit, s, cs, schedule, k)
  {
    if At(StaleCommit, s, cs, schedule, k) {
      var before, i := Execute(s, cs, schedule[..k]).store, schedule[k];
      ExecuteNext(s, cs, schedule, k);
      WriteIsLater(before, cs[i]);
      var m := SerialWritesThere(s, cs, schedule, serial, k);
      SerialWriteNew(before, cs[i], serial[m]);
    }
  }

  lemma {:induction false} SerialReplyAt(s: Store, serial: seq<Command>, m: nat)
    requires m < |serial|
    ensures RunSerial(s, serial).1[m] == Serve(RunSerial(s, serial[..m]).0, serial[m]).1
    decreases |serial|
  {
    var n := |serial| - 1;
    var front, last := serial[..n], serial[n];
    assert serial == front + [last];
    RunSerialAppend(s, front, last);
    if m == n {
    } else {
      SerialReplyAt(s, front, m);
      assert front[..m] == serial[..m];
    }
  }

  lemma FreeEarlier(s: Store, cs: seq<Command>, schedule: seq<nat>, k: nat, n: nat, c: Command)
    requires k <= n <= |schedule| && RequireKey(c.key).Some?
    requires Stored(Execute(s, cs, schedule[..n]).store, c).None?
    ensures Stored(Execute(s, cs, schedule[..k]).store, c).None?
  {
    assert schedule[..k] + schedule[k..n] == schedule[..n];
    if Stored(Execute(s, cs, schedule[..k]).store, c).Some? {
      RecordOutlivesRaces(s, cs, schedule[..k], schedule[k..n], c.tenant, RequireKey(c.key).value);
    }
  }

  /** A store of the run in which the serial run refused the upload lies before the refusal. */
  lemma RoomFound(s: Store, cs: seq<Command>, schedule: seq<nat>, k: nat, n: nat)
    requires k < |schedule| && At(RefusesContent, s, cs, schedule, k)
    requires n <= |schedule| && Refusable(Execute(s, cs, schedule[..n]).store, cs[schedule[k]])
    ensures HadRoom(s, cs, schedule, k)
  {
    var c, before := cs[schedule[k]], Execute(s, cs, schedule[..k]);
    if n > k {
      SerialIffNothingOutdated(s, cs, schedule[..k]);
      FreeEarlier(s, cs, schedule, k, n, c);
      assert Refusable(before.store, c);
    }
  }

  lemma RefusedWhere(s: Store, c: Command)
    requires Serve(s, c).1.ContentExists?
    ensures Refusable(s, c)
  {
  }

  lemma RoomNeeded(s: Store, cs: seq<Command>, schedule: seq<nat>, order: seq<nat>, k: nat)
    requires var sys := Execute(s, cs, schedule); Rearranges(order, sys.order) && SerialIn(s, cs, sys, order)
    requires k < |schedule| && At(RefusesContent, s, cs, schedule, k)
    ensures HadRoom(s, cs, schedule, k)
  {
    var sys, i := Execute(s, cs, schedule), schedule[k];
    ExecuteNext(s, cs, schedule, k);
    ReplyStays(s, cs, schedule, k + 1, i);
    SerialIffNothingOutdated(s, cs, schedule);
    assert i in multiset(sys.order) && i in multiset(order);
    var m: nat :| m < |order| && order[m] == i;
    var serial := Select(cs, order);
    SerialReplyAt(s, serial, m);
    var store := RunSerial(s, serial[..m]).0;
    RefusedWhere(store, cs[i]);
    SerialLater(s, serial, m);
    SerialLater(s, serial[..m], 0);
    var n := FirstWith(s, cs, schedule, |store.records|);
    SameStores(s, cs, schedule, serial, n, m);
    RoomFound(s, cs, schedule, k, n);
  }

  /** From any store, an interleaving of any requests equals a serial run in some order, rows and replies alike,
      exactly when no upload commits over content stored since it looked, and every upload refused for its
      content could have been refused for it while its key was still free. */
  lemma SerializableIff(s: Store, cs: seq<Command>, schedule: seq<nat>)
    ensures Serializable(s, cs, Execute(s, cs, schedule)) <==>
            !Somewhere(StaleCommit, s, cs, schedule) && RefusalsHadRoom(s, cs, schedule)
  {
    var sys := Execute(s, cs, schedule);
    if !Somewhere(StaleCommit, s, cs, schedule) && RefusalsHadRoom(s, cs, schedule) {
      var order := OrderExists(s, cs, schedule);
      assert Rearranges(order, sys.order) && SerialIn(s, cs, sys, order);
    }
    if order: seq<nat> :| Rearranges(order, sys.order) && SerialIn(s, cs, sys, order) {
      forall k: nat | k < |schedule| ensures !At(StaleCommit, s, cs, schedule, k) {
        NoStaleCommit(s, cs, schedule, Select(cs, order), k);
      }
      forall k: nat | k < |schedule| && At(RefusesContent, s, cs, schedule, k) ensures HadRoom(s, cs, schedule, k) {
        RoomNeeded(s, cs, schedule, order, k);
      }
    }
  }
}
