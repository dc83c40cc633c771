/** How a request ends in an interleaved run: whether its key is replayed, and whether its content stays unique. */
module IntakeOutcomes {
  import opened Basics
  import opened Intake
  import opened IntakeRuns
  import opened IntakeRaces

  // ---- Steps of one request ----

  /** The k-th step of the run is one of request i, of this kind. */
  ghost predicate DoneBy(
      kind: (Store, Command, Phase) -> bool, s: Store, cs: seq<Command>, schedule: seq<nat>, k: nat, i: nat)
  {
    k < |schedule| && schedule[k] == i && At(kind, s, cs, schedule, k)
  }

  predicate ReadsKey(s: Store, c: Command, phase: Phase) {
    phase.ReadingKey?
  }

  predicate FindsNoContent(s: Store, c: Command, phase: Phase) {
    phase.ReadingContent? && CheckContent(s, c).None?
  }

  lemma DoneByPrefix(
      kind: (Store, Command, Phase) -> bool, s: Store, cs: seq<Command>, schedule: seq<nat>, n: nat, k: nat, i: nat)
    requires k < n <= |schedule|
    ensures DoneBy(kind, s, cs, schedule[..n], k, i) <==> DoneBy(kind, s, cs, schedule, k, i)
  {
    assert schedule[..n][..k] == schedule[..k];
  }

  lemma ExecuteNext(s: Store, cs: seq<Command>, schedule: seq<nat>, k: nat)
    requires k < |schedule|
    ensures Execute(s, cs, schedule[..k + 1]) == Step(Execute(s, cs, schedule[..k]), cs, schedule[k])
  {
    assert schedule[..k + 1][..k] == schedule[..k];
  }

  // ---- Which requests are replayed ----

  /** Request i committed its rows. */
  ghost predicate Wrote(s: Store, cs: seq<Command>, schedule: seq<nat>, i: nat) {
    exists k: nat :: DoneBy(Commits, s, cs, schedule, k, i)
  }

  /** The record under the request's tenant and key. */
  function Stored(s: Store, c: Command): Option<RecordRow> {
    if RequireKey(c.key).None? then None else FindRecord(s.records, c.tenant, RequireKey(c.key).value)
  }

  /** What a replay from the record says to the request. */
  function Answer(r: RecordRow, c: Command): Reply {
    if r.requestHash == RequestHash(c) then Ok(r.response) else KeyReused
  }

  lemma WroteSplit(s: Store, cs: seq<Command>, schedule: seq<nat>, i: nat)
    requires |schedule| > 0
    ensures var n := |schedule| - 1;
            Wrote(s, cs, schedule, i) <==> Wrote(s, cs, schedule[..n], i) || DoneBy(Commits, s, cs, schedule, n, i)
  {
    var n := |schedule| - 1;
    if k: nat :| DoneBy(Commits, s, cs, schedule, k, i) {
      if k < n { DoneByPrefix(Commits, s, cs, schedule, n, k, i); }
    }
    if k: nat :| DoneBy(Commits, s, cs, schedule[..n], k, i) {
      DoneByPrefix(Commits, s, cs, schedule, n, k, i);
    }
  }

  lemma StepKeepsStored(sys: System, cs: seq<Command>, i: nat, c: Command)
    requires |sys.phases| == |cs| && i < |cs| && Stored(sys.store, c).Some?
    ensures Stored(Step(sys, cs, i).store, c) == Stored(sys.store, c)
  {
    if Commits(sys.store, cs[i], sys.phases[i]) {
      FindRecordOfAppend(sys.store.records, RecordOf(cs[i], RequireKey(cs[i].key).value),
                         c.tenant, RequireKey(c.key).value);
    }
  }

  lemma CommitStores(sys: System, cs: seq<Command>, i: nat)
    requires |sys.phases| == |cs| && i < |cs| && Commits(sys.store, cs[i], sys.phases[i])
    ensures Stored(Step(sys, cs, i).store, cs[i]) == Some(RecordOf(cs[i], RequireKey(cs[i].key).value))
    ensures Step(sys, cs, i).phases[i] == Finished(Ok(Response(cs[i])))
  {
    var key := RequireKey(cs[i].key).value;
    FindRecordOfAppend(sys.store.records, RecordOf(cs[i], key), cs[i].tenant, key);
  }

  /** A request that committed is answered with its own response, and its record stays the one under its key. */
  lemma {:induction false} WriterAnswered(s: Store, cs: seq<Command>, schedule: seq<nat>, i: nat)
    requires i < |cs| && Wrote(s, cs, schedule, i)
    ensures var sys := Execute(s, cs, schedule);
            && sys.phases[i] == Finished(Ok(Response(cs[i])))
            && RequireKey(cs[i].key).Some?
            && Stored(sys.store, cs[i]) == Some(RecordOf(cs[i], RequireKey(cs[i].key).value))
  {
    var n := |schedule| - 1;
    var front := schedule[..n];
    var before := Execute(s, cs, front);
    WroteSplit(s, cs, schedule, i);
    if Wrote(s, cs, front, i) {
      WriterAnswered(s, cs, front, i);
      if schedule[n] < |cs| { StepKeepsStored(before, cs, schedule[n], cs[i]); }
    } else {
      CommitStores(before, cs, i);
    }
  }

  lemma KeyRead(sys: System, cs: seq<Command>, i: nat)
    requires |sys.phases| == |cs| && i < |cs| && sys.phases[i].ReadingKey? && RequireKey(cs[i].key).Some?
    ensures var sys' := Step(sys, cs, i);
            && sys'.store == sys.store
            && match Stored(sys.store, cs[i])
               case Some(r) => sys'.phases[i] == Finished(Answer(r, cs[i]))
               case None => sys'.phases[i] == if cs[i].CreateCase? then Committing else ReadingCase
  {
  }

  lemma {:induction false} ReplyStays(s: Store, cs: seq<Command>, schedule: seq<nat>, n: nat, i: nat)
    requires n <= |schedule| && i < |cs| && Execute(s, cs, schedule[..n]).phases[i].Finished?
    ensures Execute(s, cs, schedule).phases[i] == Execute(s, cs, schedule[..n]).phases[i]
  {
    if n == |schedule| {
      assert schedule[..n] == schedule;
    } else {
      var m := |schedule| - 1;
      assert schedule[..m][..n] == schedule[..n];
      ReplyStays(s, cs, schedule[..m], n, i);
      if schedule[m] < |cs| { StepKeepsFinished(cs, Execute(s, cs, schedule[..m]), schedule[m]); }
    }
  }

  /** A request that finds a record under its key is answered from it, there and then. */
  lemma AnsweredIfSeen(s: Store, cs: seq<Command>, schedule: seq<nat>, k: nat, i: nat)
    requires DoneBy(ReadsKey, s, cs, schedule, k, i)
    requires Stored(Execute(s, cs, schedule[..k]).store, cs[i]).Some?
    ensures var sys, seen := Execute(s, cs, schedule), Stored(Execute(s, cs, schedule[..k]).store, cs[i]);
            Stored(sys.store, cs[i]) == seen && sys.phases[i] == Finished(Answer(seen.value, cs[i]))
  {
    ExecuteNext(s, cs, schedule, k);
    KeyRead(Execute(s, cs, schedule[..k]), cs, i);
    ReplyStays(s, cs, schedule, k + 1, i);
    RecordOutlivesRaces(s, cs, schedule[..k], schedule[k..], cs[i].tenant, RequireKey(cs[i].key).value);
    assert schedule[..k] + schedule[k..] == schedule;
  }

  /** Where a request can be once it has found no record under its key. */
  ghost predicate PastKey(c: Command, phase: Phase, wrote: bool) {
    match phase
    case ReadingKey => false
    case ReadingCase => c.CreateUpload?
    case ReadingContent => c.CreateUpload?
    case Committing => true
    case Finished(reply) =>
      || (wrote && reply == Ok(Response(c)))
      || reply == Failed
      || (c.CreateUpload? && (reply == CaseMissing || reply.ContentExists?))
  }

  lemma StepPastKey(sys: System, cs: seq<Command>, step: nat, i: nat, wrote: bool)
    requires |sys.phases| == |cs| && step < |cs| && i < |cs| && PastKey(cs[i], sys.phases[i], wrote)
    ensures PastKey(cs[i], Step(sys, cs, step).phases[i],
                    wrote || (step == i && Commits(sys.store, cs[i], sys.phases[i])))
  {
  }

  lemma {:induction false} RefusedIfMissed(s: Store, cs: seq<Command>, schedule: seq<nat>, k: nat, i: nat)
    requires DoneBy(ReadsKey, s, cs, schedule, k, i)
    requires RequireKey(cs[i].key).Some? && Stored(Execute(s, cs, schedule[..k]).store, cs[i]).None?
    ensures PastKey(cs[i], Execute(s, cs, schedule).phases[i], Wrote(s, cs, schedule, i))
  {
    var n := |schedule| - 1;
    if k == n {
      KeyRead(Execute(s, cs, schedule[..k]), cs, i);
    } else {
      DoneByPrefix(ReadsKey, s, cs, schedule, n, k, i);
      assert schedule[..n][..k] == schedule[..k];
      RefusedIfMissed(s, cs, schedule[..n], k, i);
      WroteSplit(s, cs, schedule, i);
      if schedule[n] < |cs| {
        StepPastKey(Execute(s, cs, schedule[..n]), cs, schedule[n], i, Wrote(s, cs, schedule[..n], i));
      }
    }
  }

  /** Let a record be under the request's key in the end, one the request did not write itself. The request is
      answered from it (the same response for the same body, a conflict for another) exactly when it was there
      when the request read its key. Otherwise the request ends as a failed commit or, an upload, may also be
      refused for its case or its content. */
  lemma ReplayedIffSeen(s: Store, cs: seq<Command>, schedule: seq<nat>, k: nat, i: nat)
    requires DoneBy(ReadsKey, s, cs, schedule, k, i)
    requires Stored(Execute(s, cs, schedule).store, cs[i]).Some? && !Wrote(s, cs, schedule, i)
    ensures var phase := Execute(s, cs, schedule).phases[i];
            var r := Stored(Execute(s, cs, schedule).store, cs[i]).value;
            var seen := Stored(Execute(s, cs, schedule[..k]).store, cs[i]).Some?;
            && (phase == Finished(Answer(r, cs[i])) <==> seen)
            && (!seen && phase.Finished? ==>
                  || phase.reply == Failed
                  || (cs[i].CreateUpload? && (phase.reply == CaseMissing || phase.reply.ContentExists?)))
  {
    if Stored(Execute(s, cs, schedule[..k]).store, cs[i]).Some? {
      AnsweredIfSeen(s, cs, schedule, k, i);
    } else {
      RefusedIfMissed(s, cs, schedule, k, i);
    }
  }

  // ---- Every successful reply was written by a request like it ----

  /** Request j wrote this record in the run. */
  ghost predicate WroteRecord(cs: seq<Command>, schedule: seq<nat>, j: nat, r: RecordRow) {
    && j < |cs|
    && Wrote(EMPTY, cs, schedule, j)
    && RequireKey(cs[j].key) == Some(r.key)
    && RecordOf(cs[j], r.key) == r
  }

  lemma {:induction false} RecordHasWriter(cs: seq<Command>, schedule: seq<nat>, r: RecordRow) returns (j: nat)
    requires r in Execute(EMPTY, cs, schedule).store.records
    ensures WroteRecord(cs, schedule, j, r)
  {
    var n := |schedule| - 1;
    var before := Execute(EMPTY, cs, schedule[..n]);
    if r in before.store.records {
      j := RecordHasWriter(cs, schedule[..n], r);
    } else {
      j := schedule[n];
      assert DoneBy(Commits, EMPTY, cs, schedule, n, j);
    }
    WroteSplit(EMPTY, cs, schedule, j);
  }

  ghost predicate SuccessRecorded(cs: seq<Command>, sys: System, i: nat)
    requires |sys.phases| == |cs| && i < |cs|
  {
    sys.phases[i].Finished? && sys.phases[i].reply.Ok? ==>
      var r := Stored(sys.store, cs[i]);
      r.Some? && Answer(r.value, cs[i]) == sys.phases[i].reply
  }

  lemma {:induction false} SuccessIsRecorded(cs: seq<Command>, schedule: seq<nat>, i: nat)
    requires i < |cs|
    ensures SuccessRecorded(cs, Execute(EMPTY, cs, schedule), i)
  {
    if |schedule| == 0 {
    } else {
      var n := |schedule| - 1;
      var before, step := Execute(EMPTY, cs, schedule[..n]), schedule[n];
      SuccessIsRecorded(cs, schedule[..n], i);
      if step < |cs| {
        if Stored(before.store, cs[i]).Some? {
          StepKeepsStored(before, cs, step, cs[i]);
        } else if step == i && Commits(before.store, cs[i], before.phases[i]) {
          CommitStores(before, cs, i);
        }
      }
    }
  }

  /** In any interleaving, a successful reply is the response of a request that committed: one of the same kind,
      tenant, key and body, answered with it too. */
  lemma SuccessHasWriter(cs: seq<Command>, schedule: seq<nat>, i: nat) returns (j: nat)
    requires var phases := Execute(EMPTY, cs, schedule).phases;
             i < |phases| && phases[i].Finished? && phases[i].reply.Ok?
    ensures j < |cs| && Wrote(EMPTY, cs, schedule, j)
    ensures cs[j].tenant == cs[i].tenant && RequireKey(cs[j].key) == RequireKey(cs[i].key) && SameBody(cs[j], cs[i])
    ensures var phases := Execute(EMPTY, cs, schedule).phases; phases[i] == phases[j] == Finished(Ok(Response(cs[j])))
  {
    var store := Execute(EMPTY, cs, schedule).store;
    SuccessIsRecorded(cs, schedule, i);
    FoundRecordIsStored(store.records, cs[i].tenant, RequireKey(cs[i].key).value);
    j := RecordHasWriter(cs, schedule, Stored(store, cs[i]).value);
    WriterAnswered(EMPTY, cs, schedule, j);
    RequestHashIffSameBody(cs[j], cs[i]);
  }

  // ---- When content stays unique ----

  lemma StepContentIff(cs: seq<Command>, sys: System, i: nat)
    requires |sys.phases| == |cs| && i < |cs|
    ensures ContentDistinct(Step(sys, cs, i).store.versions) <==>
            ContentDistinct(sys.store.versions) && !StaleCommit(sys.store, cs[i], sys.phases[i])
  {
    var c, versions := cs[i], sys.store.versions;
    if Commits(sys.store, c, sys.phases[i]) && c.CreateUpload? {
      AbsentContent(versions, c.tenant, c.document.sha256);
      var versions' := versions + [VersionRowOf(c)];
      assert ContentDistinct(versions') ==> ContentDistinct(versions) by {
        assert forall k :: 0 <= k < |versions| ==> versions'[k] == versions[k];
      }
      if FindContent(versions, c.tenant, c.document.sha256).Some? {
        var k :| 0 <= k < |versions| && versions[k].tenantId == c.tenant && versions[k].sha256 == c.document.sha256;
        assert versions'[k] == versions[k] && versions'[|versions|] == VersionRowOf(c);
      }
    }
  }

  /** Content stays distinct exactly when no commit adds content that is already stored. */
  lemma {:induction false} ContentDedupIffNoStaleCommit(s: Store, cs: seq<Command>, schedule: seq<nat>)
    requires ContentDistinct(s.versions)
    ensures ContentDistinct(Execute(s, cs, schedule).store.versions) <==> !Somewhere(StaleCommit, s, cs, schedule)
  {
    if |schedule| == 0 {
    } else {
      var front, i := schedule[..|schedule| - 1], schedule[|schedule| - 1];
      ContentDedupIffNoStaleCommit(s, cs, front);
      SomewhereSplit(StaleCommit, s, cs, schedule);
      if i < |cs| {
        StepContentIff(cs, Execute(s, cs, front), i);
      }
    }
  }

  function ContentOf(sys: System, c: Command): Option<VersionRow>
    requires c.CreateUpload?
  {
    FindContent(sys.store.versions, c.tenant, c.document.sha256)
  }

  predicate SameContent(a: Command, b: Command) {
    a.CreateUpload? && b.CreateUpload? && a.tenant == b.tenant && a.document.sha256 == b.document.sha256
  }

  lemma StepContent(sys: System, cs: seq<Command>, i: nat, c: Command)
    requires |sys.phases| == |cs| && i < |cs| && c.CreateUpload?
    ensures ContentOf(Step(sys, cs, i), c).Some? <==>
            ContentOf(sys, c).Some? || (Commits(sys.store, cs[i], sys.phases[i]) && SameContent(cs[i], c))
  {
    if Commits(sys.store, cs[i], sys.phases[i]) && cs[i].CreateUpload? {
      FindContentOfAppend(sys.store.versions, VersionRowOf(cs[i]), c.tenant, c.document.sha256);
    }
  }

  /** An upload about to commit has looked for its content and found none. */
  lemma {:induction false} HasLooked(s: Store, cs: seq<Command>, schedule: seq<nat>, j: nat) returns (look: nat)
    requires j < |cs| && cs[j].CreateUpload? && Execute(s, cs, schedule).phases[j].Committing?
    ensures DoneBy(FindsNoContent, s, cs, schedule, look, j)
  {
    var n := |schedule| - 1;
    var before := Execute(s, cs, schedule[..n]);
    if before.phases[j].Committing? {
      look := HasLooked(s, cs, schedule[..n], j);
      DoneByPrefix(FindsNoContent, s, cs, schedule, n, look, j);
    } else {
      look := n;
      SerialIffNothingOutdated(s, cs, schedule[..n]);
    }
  }

  /** Content absent at one point of the run and present at a later one was committed in between. */
  lemma {:induction false} ContentArrives(
      s: Store, cs: seq<Command>, schedule: seq<nat>, from: nat, until: nat, c: Command) returns (ci: nat)
    requires from <= until <= |schedule| && c.CreateUpload?
    requires ContentOf(Execute(s, cs, schedule[..from]), c).None?
    requires ContentOf(Execute(s, cs, schedule[..until]), c).Some?
    ensures from <= ci < until && schedule[ci] < |cs| && SameContent(cs[schedule[ci]], c)
    ensures DoneBy(Commits, s, cs, schedule, ci, schedule[ci])
  {
    var before := Execute(s, cs, schedule[..until - 1]);
    ExecuteNext(s, cs, schedule, until - 1);
    if ContentOf(before, c).Some? {
      ci := ContentArrives(s, cs, schedule, from, until - 1, c);
    } else {
      ci := until - 1;
      if schedule[ci] < |cs| { StepContent(before, cs, schedule[ci], c); }
    }
  }

  lemma {:induction false} ContentStays(
      s: Store, cs: seq<Command>, schedule: seq<nat>, from: nat, until: nat, c: Command)
    requires from <= until <= |schedule| && c.CreateUpload?
    requires ContentOf(Execute(s, cs, schedule[..from]), c).Some?
    ensures ContentOf(Execute(s, cs, schedule[..until]), c).Some?
    decreases until
  {
    if from == until {
    } else {
      ContentStays(s, cs, schedule, from, until - 1, c);
      ExecuteNext(s, cs, schedule, until - 1);
      if schedule[until - 1] < |cs| { StepContent(Execute(s, cs, schedule[..until - 1]), cs, schedule[until - 1], c); }
    }
  }

  /** Upload j finds its content absent at step `look` and commits at step `cj`; in between, at step `ci`, another
      upload of that content commits. */
  ghost predicate Overtaken(s: Store, cs: seq<Command>, schedule: seq<nat>, look: nat, ci: nat, cj: nat) {
    && look < ci < cj < |schedule|
    && schedule[ci] < |cs| && schedule[cj] < |cs| && SameContent(cs[schedule[ci]], cs[schedule[cj]])
    && DoneBy(FindsNoContent, s, cs, schedule, look, schedule[cj])
    && DoneBy(Commits, s, cs, schedule, ci, schedule[ci])
    && DoneBy(Commits, s, cs, schedule, cj, schedule[cj])
  }

  lemma StaleCommitIsOvertaken(s: Store, cs: seq<Command>, schedule: seq<nat>, cj: nat) returns (look: nat, ci: nat)
    requires cj < |schedule| && At(StaleCommit, s, cs, schedule, cj)
    ensures Overtaken(s, cs, schedule, look, ci, cj)
  {
    var j := schedule[cj];
    look := HasLooked(s, cs, schedule[..cj], j);
    DoneByPrefix(FindsNoContent, s, cs, schedule, cj, look, j);
    ci := ContentArrives(s, cs, schedule, look, cj, cs[j]);
  }

  lemma OvertakenIsStaleCommit(s: Store, cs: seq<Command>, schedule: seq<nat>, look: nat, ci: nat, cj: nat)
    requires Overtaken(s, cs, schedule, look, ci, cj)
    ensures At(StaleCommit, s, cs, schedule, cj)
  {
    var c := cs[schedule[cj]];
    ExecuteNext(s, cs, schedule, ci);
    StepContent(Execute(s, cs, schedule[..ci]), cs, schedule[ci], c);
    ContentStays(s, cs, schedule, ci + 1, cj, c);
  }

  /** An interleaved run breaks content deduplication exactly when some upload is overtaken between its look at the
      content and its commit by another upload of that content. */
  lemma ContentDuplicatedIffOvertaken(s: Store, cs: seq<Command>, schedule: seq<nat>)
    requires ContentDistinct(s.versions)
    ensures !ContentDistinct(Execute(s, cs, schedule).store.versions) <==>
            exists look: nat, ci: nat, cj: nat :: Overtaken(s, cs, schedule, look, ci, cj)
  {
    ContentDedupIffNoStaleCommit(s, cs, schedule);
    if cj :| 0 <= cj < |schedule| && At(StaleCommit, s, cs, schedule, cj) {
      var look, ci := StaleCommitIsOvertaken(s, cs, schedule, cj);
    }
    if look: nat, ci: nat, cj: nat :| Overtaken(s, cs, schedule, look, ci, cj) {
      OvertakenIsStaleCommit(s, cs, schedule, look, ci, cj);
    }
  }

  // ---- Two runs that show what can go wrong ----

  lemma ExecuteAppend(s: Store, cs: seq<Command>, schedule: seq<nat>, i: nat)
    ensures Execute(s, cs, schedule + [i]) == Step(Execute(s, cs, schedule), cs, i)
  {
    assert (schedule + [i])[..|schedule|] == schedule;
  }

  /** The three reads of an uploadable request, none of them interrupted by a commit. */
  lemma ThreeReads(s: Store, cs: seq<Command>, schedule: seq<nat>, i: nat)
    requires i < |cs| && Execute(s, cs, schedule).phases[i] == ReadingKey
    requires Uploadable(Execute(s, cs, schedule).store, cs[i])
    ensures var sys := Execute(s, cs, schedule);
            Execute(s, cs, schedule + [i] + [i] + [i]) == sys.(phases := sys.phases[i := Committing])
  {
    ExecuteAppend(s, cs, schedule, i);
    ExecuteAppend(s, cs, schedule + [i], i);
    ExecuteAppend(s, cs, schedule + [i] + [i], i);
    var sys := Execute(s, cs, schedule);
    assert sys.phases[i := ReadingCase][i := ReadingContent][i := Committing] == sys.phases[i := Committing];
  }

  lemma BothLooked(s: Store, a: Command, b: Command)
    requires Uploadable(s, a) && Uploadable(s, b)
    ensures Execute(s, [a, b], [0, 0, 0, 1, 1, 1]) == System(s, [Committing, Committing], [])
  {
    var cs, none: seq<nat> := [a, b], [];
    assert Execute(s, cs, none) == System(s, [ReadingKey, ReadingKey], []);
    ThreeReads(s, cs, none, 0);
    ThreeReads(s, cs, none + [0] + [0] + [0], 1);
    assert none + [0] + [0] + [0] + [1] + [1] + [1] == [0, 0, 0, 1, 1, 1];
  }

  lemma TwoVersionsClash(versions: seq<VersionRow>, a: VersionRow, b: VersionRow)
    requires a.tenantId == b.tenantId && a.sha256 == b.sha256
    ensures !ContentDistinct(versions + [a] + [b])
  {
    var all := versions + [a] + [b];
    assert all[|versions|] == a && all[|versions| + 1] == b;
  }

  lemma BothCommit(s: Store, a: Command, b: Command)
    requires Uploadable(s, a) && Uploadable(s, b) && (a.tenant != b.tenant || RequireKey(a.key) != RequireKey(b.key))
    ensures var first := Step(System(s, [Committing, Committing], []), [a, b], 0);
            && first.phases == [Finished(Ok(Response(a))), Committing] && first.store == Write(s, a)
            && Step(first, [a, b], 1).phases == [Finished(Ok(Response(a))), Finished(Ok(Response(b)))]
            && Step(first, [a, b], 1).store == Write(Write(s, a), b)
  {
    FindRecordOfAppend(s.records, RecordOf(a, RequireKey(a.key).value), b.tenant, RequireKey(b.key).value);
  }

  /** Two uploads of the same content under different keys both read before either commits: both succeed,
      and the tenant has two versions with one sha256. */
  lemma ContentRace(s: Store, a: Command, b: Command)
    requires Uploadable(s, a) && Uploadable(s, b)
    requires a.tenant == b.tenant && a.document.sha256 == b.document.sha256
    requires RequireKey(a.key) != RequireKey(b.key)
    ensures var sys := Execute(s, [a, b], [0, 0, 0, 1, 1, 1] + [0] + [1]);
            && sys.phases == [Finished(Ok(Response(a))), Finished(Ok(Response(b)))]
            && !ContentDistinct(sys.store.versions)
  {
    var cs, looked := [a, b], [0, 0, 0, 1, 1, 1];
    BothLooked(s, a, b);
    ExecuteAppend(s, cs, looked, 0);
    ExecuteAppend(s, cs, looked + [0], 1);
    BothCommit(s, a, b);
    TwoVersionsClash(s.versions, VersionRowOf(a), VersionRowOf(b));
  }

  lemma OneLookedOneReady(s: Store, a: Command, b: Command)
    requires Uploadable(s, a) && Uploadable(s, b)
    ensures Execute(s, [a, b], [0, 1, 1, 1]) == System(s, [ReadingCase, Committing], [])
  {
    var cs, none: seq<nat> := [a, b], [];
    assert Execute(s, cs, none) == System(s, [ReadingKey, ReadingKey], []);
    ExecuteAppend(s, cs, none, 0);
    assert Execute(s, cs, none + [0]) == System(s, [ReadingCase, ReadingKey], []);
    ThreeReads(s, cs, none + [0], 1);
    assert none + [0] + [1] + [1] + [1] == [0, 1, 1, 1];
  }

  lemma RunSerialTwo(s: Store, a: Command, b: Command)
    ensures RunSerial(s, [a, b]).1 == [Serve(s, a).1, Serve(Serve(s, a).0, b).1]
  {
    var none: seq<Command> := [];
    RunSerialAppend(s, none, a);
    RunSerialAppend(s, [a], b);
    assert none + [a] == [a] && [a] + [b] == [a, b];
  }

  lemma ServedAgain(s: Store, a: Command, b: Command)
    requires Serve(s, a).1.Ok?
    requires a.tenant == b.tenant && RequireKey(a.key) == RequireKey(b.key) && SameBody(a, b)
    ensures RunSerial(s, [a, b]).1 == [Serve(s, a).1, Serve(s, a).1]
  {
    ReplayIsStable(s, a, [], b);
    RunSerialTwo(s, a, b);
  }

  lemma UploadServed(s: Store, a: Command)
    requires Uploadable(s, a)
    ensures Serve(s, a).1 == Ok(Response(a))
  {
  }

  lemma LaterContentRefuses(s: Store, a: Command, b: Command)
    requires Uploadable(s, a) && Uploadable(s, b)
    requires a.tenant == b.tenant && RequireKey(a.key) == RequireKey(b.key) && SameBody(a, b)
    ensures var cs := [a, b];
            Step(Step(Step(System(s, [ReadingCase, Committing], []), cs, 1), cs, 0), cs, 0).phases ==
            [Finished(ContentExists(b.versionId)), Finished(Ok(Response(b)))]
  {
    FindContentOfAppend(s.versions, VersionRowOf(b), a.tenant, a.document.sha256);
  }

  /** The same upload submitted twice: the one that read its key first is refused because the other's content
      is stored meanwhile. Served one after the other, in either order, both get the first one's response. */
  lemma DoubleSubmitCanBeRefused(s: Store, a: Command, b: Command)
    requires Uploadable(s, a) && Uploadable(s, b)
    requires a.tenant == b.tenant && RequireKey(a.key) == RequireKey(b.key) && SameBody(a, b)
    ensures Execute(s, [a, b], [0, 1, 1, 1] + [1] + [0] + [0]).phases
         == [Finished(ContentExists(b.versionId)), Finished(Ok(Response(b)))]
    ensures RunSerial(s, [a, b]).1 == [Ok(Response(a)), Ok(Response(a))]
    ensures RunSerial(s, [b, a]).1 == [Ok(Response(b)), Ok(Response(b))]
  {
    OneLookedOneReady(s, a, b);
    ExecuteAppend(s, [a, b], [0, 1, 1, 1], 1);
    ExecuteAppend(s, [a, b], [0, 1, 1, 1] + [1], 0);
    ExecuteAppend(s, [a, b], [0, 1, 1, 1] + [1] + [0], 0);
    LaterContentRefuses(s, a, b);
    UploadServed(s, a);
    UploadServed(s, b);
    ServedAgain(s, a, b);
    ServedAgain(s, b, a);
  }

  lemma BothCasesReadKey(s: Store, a: Command, b: Command)
    requires a.CreateCase? && b.CreateCase? && RequireKey(a.key).Some? && RequireKey(b.key).Some?
    requires Stored(s, a).None? && Stored(s, b).None?
    ensures Execute(s, [a, b], [0, 1]) == System(s, [Committing, Committing], [])
  {
    var cs, none: seq<nat> := [a, b], [];
    assert Execute(s, cs, none) == System(s, [ReadingKey, ReadingKey], []);
    ExecuteAppend(s, cs, none, 0);
    ExecuteAppend(s, cs, none + [0], 1);
    assert none + [0] + [1] == [0, 1];
  }

  lemma SecondCommitFails(s: Store, a: Command, b: Command)
    requires RequireKey(a.key).Some? && Stored(s, a).None?
    requires a.tenant == b.tenant && RequireKey(a.key) == RequireKey(b.key)
    ensures var first := Step(System(s, [Committing, Committing], []), [a, b], 0);
            Step(first, [a, b], 1).phases == [Finished(Ok(Response(a))), Finished(Failed)]
  {
    var both, cs := System(s, [Committing, Committing], []), [a, b];
    CommitStores(both, cs, 0);
    assert Stored(Step(both, cs, 0).store, b) == Stored(Step(both, cs, 0).store, a);
  }

  /** The same case submitted twice: both read the key before either commits, and the second one fails. Served one
      after the other they both get the first one's response. */
  lemma DoubleCaseCanFail(s: Store, a: Command, b: Command)
    requires a.CreateCase? && b.CreateCase? && RequireKey(a.key).Some? && Stored(s, a).None?
    requires a.tenant == b.tenant && RequireKey(a.key) == RequireKey(b.key) && SameBody(a, b)
    ensures Execute(s, [a, b], [0, 1] + [0] + [1]).phases == [Finished(Ok(Response(a))), Finished(Failed)]
    ensures RunSerial(s, [a, b]).1 == [Ok(Response(a)), Ok(Response(a))]
  {
    BothCasesReadKey(s, a, b);
    ExecuteAppend(s, [a, b], [0, 1], 0);
    ExecuteAppend(s, [a, b], [0, 1] + [0], 1);
    SecondCommitFails(s, a, b);
    ServedAgain(s, a, b);
  }
}
