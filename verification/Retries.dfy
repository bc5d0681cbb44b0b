/** Sending the bytes again: what a resend ends with, however slowly it runs, whatever runs beside it,
    and however far earlier attempts got. */
module Retries {
  import opened Basics
  import opened Schema
  import opened Keys
  import opened Storage
  import opened Receiving
  import opened Protocol
  import opened Changes
  import opened Ledger
  import opened CrashSafety
  import opened Streaming
  import opened LifecycleRuns
  import opened Interleaving

  // ----- the steps of a transfer do not look at the clock -----

  /** What may stand between the beginning of a transfer and its commit: its own steps, time passing
      and sweeps. */
  predicate IsSending(a: Action, id: VersionId) {
    a.Tick? || a.SweepNow? || ((a.Write? || a.Sync? || a.Verify? || a.Probe? || a.Place?) && a.id == id)
  }

  predicate IsTimed(a: Action) {
    a.Tick? || a.SweepNow?
  }

  /** The steps without the waits and the sweeps. */
  function Untimed(steps: seq<Action>): seq<Action>
    decreases |steps|
  {
    if steps == [] then []
    else (if IsTimed(steps[0]) then [] else [steps[0]]) + Untimed(steps[1..])
  }

  function Waited(a: Action): nat {
    if a.Tick? then a.d else 0
  }

  /** How long the steps take. */
  function Elapsed(steps: seq<Action>): nat
    decreases |steps|
  {
    if steps == [] then 0 else Waited(steps[0]) + Elapsed(steps[1..])
  }

  /** No sweep comes when the reservation has expired. */
  predicate SweptInTime(now: Time, expires: Time, steps: seq<Action>)
    decreases |steps|
  {
    steps == [] ||
    ((steps[0].SweepNow? ==> now < expires) && SweptInTime(now + Waited(steps[0]), expires, steps[1..]))
  }

  lemma {:induction false} SendingClock(env: Env, w: World, steps: seq<Action>, id: VersionId)
    requires forall a | a in steps :: IsSending(a, id)
    ensures Run(env, w, steps).now == w.now + Elapsed(steps)
    decreases |steps|
  {
    if steps != [] {
      assert steps[0] in steps;
      StepClock(env, w, steps[0], id);
      SendingClock(env, Step(env, w, steps[0]), steps[1..], id);
    }
  }

  lemma StepClock(env: Env, w: World, a: Action, id: VersionId)
    requires IsSending(a, id)
    ensures Step(env, w, a).now == w.now + Waited(a)
  {
  }

  lemma TimedView(env: Env, w: World, a: Action, id: VersionId)
    requires IsTimed(a) && (a.SweepNow? && id in w.db.versions ==> !IsExpired(w.db.versions[id], w.now))
    ensures ViewOf(Step(env, w, a), id) == ViewOf(w, id)
  {
  }

  lemma SendingView(env: Env, w: World, x: World, a: Action, id: VersionId)
    requires Good(env, w) && Good(env, x) && id < w.db.nextVersion && id < x.db.nextVersion
    requires ViewOf(w, id) == ViewOf(x, id) && IsSending(a, id) && !IsTimed(a)
    ensures ViewOf(Step(env, w, a), id) == ViewOf(Step(env, x, a), id)
  {
    if id !in w.db.versions {
      GoneStays(env, w, a, id);
      GoneStays(env, x, a, id);
    } else {
      assert TransferOf(w, id) == TransferOf(x, id);
      if id in w.inflight && !w.inflight[id].phase.Placed? {
        StagedOfTransfer(env, w, id);
        StagedOfTransfer(env, x, id);
      }
      SendingSame(env, w, x, a, id);
    }
  }

  lemma SendingSame(env: Env, w: World, x: World, a: Action, id: VersionId)
    requires Same(w, x, id) && IsSending(a, id) && !IsTimed(a)
    requires id in w.inflight && !w.inflight[id].phase.Placed? ==> id in w.volume.staging && id in x.volume.staging
    ensures ViewOf(Step(env, w, a), id) == ViewOf(Step(env, x, a), id)
  {
    match a
    case Write(_, chunk) => OwnWrite(w, x, id, chunk);
    case Sync(_) => OwnSync(w, x, id);
    case Verify(_, layer) => OwnVerify(env, w, x, id, layer);
    case Probe(_) => OwnProbe(env, w, x, id);
    case Place(_) => OwnPlace(env, w, x, id);
  }

  /** The row is what it was, as long as it is there. */
  lemma SendingRow(env: Env, w: World, a: Action, id: VersionId)
    requires IsSending(a, id) && id in Step(env, w, a).db.versions
    ensures id in w.db.versions && Step(env, w, a).db.versions[id] == w.db.versions[id]
  {
  }

  /** Waits and timely sweeps between the steps of a transfer make no difference to it. */
  lemma {:induction false} WaitsDoNotMatter(env: Env, w: World, x: World, steps: seq<Action>, id: VersionId,
                                            expires: Time)
    requires Good(env, w) && Good(env, x) && id < w.db.nextVersion && id < x.db.nextVersion
    requires ViewOf(w, id) == ViewOf(x, id) && forall a | a in steps :: IsSending(a, id)
    requires id in w.db.versions ==> w.db.versions[id].expiresAt == Some(expires)
    requires SweptInTime(w.now, expires, steps)
    ensures ViewOf(Run(env, w, steps), id) == ViewOf(Run(env, x, Untimed(steps)), id)
    decreases |steps|
  {
    if steps != [] {
      var a := steps[0];
      var w1 := Step(env, w, a);
      assert a in steps;
      KeepGood(env, w, a);
      StepRows(env, w, a);
      StepClock(env, w, a, id);
      if id in w1.db.versions {
        SendingRow(env, w, a, id);
      }
      if IsTimed(a) {
        TimedView(env, w, a, id);
        assert Untimed(steps) == Untimed(steps[1..]);
        WaitsDoNotMatter(env, w1, x, steps[1..], id, expires);
      } else {
        SendingView(env, w, x, a, id);
        KeepGood(env, x, a);
        StepRows(env, x, a);
        assert Untimed(steps)[1..] == Untimed(steps[1..]);
        WaitsDoNotMatter(env, w1, Step(env, x, a), steps[1..], id, expires);
      }
    }
  }

  // ----- one transfer up to its commit -----

  function Placing(id: VersionId, layer: Layer): seq<Action> {
    [Sync(id), Verify(id, layer), Probe(id), Place(id)]
  }

  lemma RunPlacing(env: Env, w: World, id: VersionId, layer: Layer)
    ensures Run(env, w, Placing(id, layer))
         == StepPlace(env, StepProbe(env, StepVerify(env, StepSync(w, id), id, layer), id), id)
  {
    var f := Placing(id, layer);
    var w1 := StepSync(w, id);
    var w2 := StepVerify(env, w1, id, layer);
    var w3 := StepProbe(env, w2, id);
    assert f[1..][1..] == f[2..] && f[2..][1..] == f[3..] && f[3..][1..] == [];
    assert Run(env, w, f) == Run(env, w1, f[1..]);
    assert Run(env, w1, f[1..]) == Run(env, w2, f[2..]);
    assert Run(env, w2, f[2..]) == Run(env, w3, f[3..]);
    assert Run(env, w3, f[3..]) == Run(env, StepPlace(env, w3, id), []);
  }

  /** A fully written staging file with the right bytes is placed, and nothing else changes. */
  lemma PlacingLands(env: Env, w: World, id: VersionId, layer: Layer)
    requires IsStreaming(w, id)
    requires var t := w.inflight[id]; |t.written| == t.size && env.hash(t.written) == t.sha256
    ensures var x := Run(env, w, Placing(id, layer));
      && x.db == w.db && InPhase(x, id, Placed) && x.inflight[id] == w.inflight[id].(phase := Placed)
      && id !in x.volume.staging
  {
    RunPlacing(env, w, id, layer);
    var w2 := StepVerify(env, StepSync(w, id), id, layer);
    assert InPhase(w2, id, Verified) && w2.db == w.db && w2.volume == w.volume;
    assert w2.inflight[id] == w.inflight[id].(phase := Verified);
  }

  function Filed(env: Env, v: Version, bytes: Bytes): Version {
    v.(objectKey := ObjectKey(env.hash(bytes)), state := Uploaded)
  }

  /** A transfer of the right bytes, begun on an open slot and run up to its commit without a pause. */
  lemma SentAndPlaced(env: Env, w: World, id: VersionId, u: UserId, chunks: seq<Bytes>, layer: Layer)
    requires id !in w.inflight && ReservedSlot(w.db, id, u, w.now).Ok?
    requires |Concat(chunks)| == w.db.versions[id].size && env.hash(Concat(chunks)) == w.db.versions[id].sha256
    ensures var x := Run(env, StepBegin(w, id, u), Writes(id, chunks) + Placing(id, layer));
      && x.db == w.db && InPhase(x, id, Placed) && id !in x.volume.staging
      && x.inflight[id].user == u && x.inflight[id].written == Concat(chunks)
  {
    var w1 := StepBegin(w, id, u);
    assert [] + Concat(chunks) == Concat(chunks);
    RunJoin(env, w1, Writes(id, chunks), Placing(id, layer));
    WritesLand(env, w1, id, chunks);
    PlacingLands(env, Run(env, w1, Writes(id, chunks)), id, layer);
  }

  // ----- the resend -----

  lemma {:induction false} EntriesAreCounted(ledger: seq<Entry>, id: VersionId)
    ensures |EntriesOf(ledger, id)| == EntriesFor(ledger, id)
    decreases |ledger|
  {
    if ledger != [] {
      EntriesAreCounted(ledger[..|ledger| - 1], id);
    }
  }

  /** Nothing was charged for a reservation. */
  lemma NoEntries(env: Env, users: map<UserId, User>, t: Time, actions: seq<Action>, id: VersionId)
    requires var db := Run(env, Start(users, t), actions).db; id in db.versions ==> db.versions[id].state == Reserved
    ensures EntriesOf(Run(env, Start(users, t), actions).db.ledger, id) == []
  {
    LedgerIsExact(env, users, t, actions, 0, id);
    EntriesAreCounted(Run(env, Start(users, t), actions).db.ledger, id);
  }

  /** The steps in order, with waits and sweeps between them. */
  predicate AreSteps(steps: seq<Action>, id: VersionId, chunks: seq<Bytes>, layer: Layer) {
    && (forall a | a in steps :: IsSending(a, id))
    && Untimed(steps) == Writes(id, chunks) + Placing(id, layer)
  }

  /** Begin, the steps, commit. */
  predicate IsResend(sent: seq<Action>, steps: seq<Action>, id: VersionId, u: UserId, chunks: seq<Bytes>,
                     layer: Layer)
  {
    sent == [Begin(id, u)] + (steps + [Commit(id)]) && AreSteps(steps, id, chunks, layer)
  }

  lemma RunSent(env: Env, w: World, steps: seq<Action>, id: VersionId, u: UserId)
    ensures Run(env, w, [Begin(id, u)] + (steps + [Commit(id)]))
         == StepCommit(env, Run(env, StepBegin(w, id, u), steps), id)
  {
    var w1 := StepBegin(w, id, u);
    assert ([Begin(id, u)] + (steps + [Commit(id)]))[1..] == steps + [Commit(id)];
    RunJoin(env, w1, steps, [Commit(id)]);
    var w2 := Run(env, w1, steps);
    assert [Commit(id)][1..] == [];
    assert Run(env, w2, [Commit(id)]) == Run(env, StepCommit(env, w2, id), []);
  }

  /** A transfer is done with the volume, on a row and with entries that are what they were. */
  predicate IsReady(y: World, id: VersionId, v: Version, u: UserId, bytes: Bytes, entries: seq<Entry>, now: Time) {
    && InPhase(y, id, Placed) && id in y.db.versions && y.db.versions[id] == v && id !in y.volume.staging
    && y.inflight[id].user == u && y.inflight[id].written == bytes
    && OwnerOf(y.db, v) == Some(u) && EntriesOf(y.db.ledger, id) == entries && y.now == now
  }

  /** What a transfer begun on an open slot shows just before its commit, however slow it was. */
  lemma PlacedAtLast(env: Env, w: World, steps: seq<Action>, id: VersionId, u: UserId, chunks: seq<Bytes>,
                     layer: Layer, expires: Time)
    requires Good(env, w) && id !in w.inflight && ReservedSlot(w.db, id, u, w.now).Ok?
    requires w.db.versions[id].expiresAt == Some(expires) && SweptInTime(w.now, expires, steps)
    requires |Concat(chunks)| == w.db.versions[id].size && env.hash(Concat(chunks)) == w.db.versions[id].sha256
    requires AreSteps(steps, id, chunks, layer)
    ensures IsReady(Run(env, StepBegin(w, id, u), steps), id, w.db.versions[id], u, Concat(chunks),
                    EntriesOf(w.db.ledger, id), w.now + Elapsed(steps))
  {
    var w1 := StepBegin(w, id, u);
    var x, y := Run(env, w1, Untimed(steps)), Run(env, w1, steps);
    assert ViewOf(y, id) == ViewOf(x, id) by {
      KeepGood(env, w, Begin(id, u));
      WaitsDoNotMatter(env, w1, w1, steps, id, expires);
    }
    SentAndPlaced(env, w, id, u, chunks, layer);
    SendingClock(env, w1, steps, id);
    ReadyByView(w, x, y, id, u, Concat(chunks));
  }

  /** Two worlds that show the same of an upload: if it is ready in one, it is in the other. */
  lemma ReadyByView(w: World, x: World, y: World, id: VersionId, u: UserId, bytes: Bytes)
    requires ViewOf(y, id) == ViewOf(x, id) && x.db == w.db && id in w.db.versions && Owned(w.db, w.db.versions[id], u)
    requires InPhase(x, id, Placed) && id !in x.volume.staging
    requires x.inflight[id].user == u && x.inflight[id].written == bytes
    ensures IsReady(y, id, w.db.versions[id], u, bytes, EntriesOf(w.db.ledger, id), y.now)
  {
    assert TransferOf(y, id) == TransferOf(x, id);
  }

  /** From any reachable state in which the reservation is open and no transfer of it is in flight:
      a transfer of the right bytes ends in the uploaded row, one entry dated when it committed, and
      no transfer and no staging file left; however much time passes and whatever sweeps run between
      its steps, as long as none comes after the expiry, and whatever other accounts and uploads do. */
  lemma ResendLands(env: Env, users: map<UserId, User>, t: Time, before: seq<Action>, resend: seq<Action>,
                    steps: seq<Action>, id: VersionId, u: UserId, chunks: seq<Bytes>, layer: Layer)
    requires var w := Run(env, Start(users, t), before); id !in w.inflight && ReservedSlot(w.db, id, u, w.now).Ok?
    requires var v := Run(env, Start(users, t), before).db.versions[id];
      && |Concat(chunks)| == v.size && env.hash(Concat(chunks)) == v.sha256
      && (v.expiresAt.Some? ==>
            SweptInTime(Run(env, Start(users, t), before).now, v.expiresAt.value, steps))
    requires IsResend(Own(resend, id), steps, id, u, chunks, layer)
    ensures var w := Run(env, Start(users, t), before);
      var v := w.db.versions[id];
      ViewOf(Run(env, Start(users, t), before + resend), id)
        == Present(Filed(env, v, Concat(chunks)), Some(u),
                   [Entry(u, id, v.size, CommitReason, w.now + Elapsed(steps))], None, None)
  {
    var w := Run(env, Start(users, t), before);
    ResendView(env, users, t, before, w, w.db.versions[id], Run(env, StepBegin(w, id, u), steps),
               w.now + Elapsed(steps), resend, steps, id, u, chunks, layer);
  }

  lemma ResendView(env: Env, users: map<UserId, User>, t: Time, before: seq<Action>, w: World, v: Version, y: World,
                   now: Time, resend: seq<Action>, steps: seq<Action>, id: VersionId, u: UserId, chunks: seq<Bytes>,
                   layer: Layer)
    requires w == Run(env, Start(users, t), before)
    requires id !in w.inflight && ReservedSlot(w.db, id, u, w.now) == Ok(v)
    requires |Concat(chunks)| == v.size && env.hash(Concat(chunks)) == v.sha256
    requires v.expiresAt.Some? ==> SweptInTime(w.now, v.expiresAt.value, steps)
    requires IsResend(Own(resend, id), steps, id, u, chunks, layer)
    requires y == Run(env, StepBegin(w, id, u), steps) && now == w.now + Elapsed(steps)
    ensures ViewOf(Run(env, Start(users, t), before + resend), id)
         == Present(Filed(env, v, Concat(chunks)), Some(u), [Entry(u, id, v.size, CommitReason, now)], None, None)
  {
    OpenSlotFacts(env, users, t, before, id, u);
    assert ViewOf(Run(env, Start(users, t), before + resend), id) == ViewOf(StepCommit(env, y, id), id) by {
      ResendAlone(env, users, t, before, resend, steps, id, u);
    }
    SentView(env, w, y, v, now, steps, id, u, chunks, layer);
  }

  /** The resend, seen without what runs beside it. */
  lemma ResendAlone(env: Env, users: map<UserId, User>, t: Time, before: seq<Action>, resend: seq<Action>,
                    steps: seq<Action>, id: VersionId, u: UserId)
    requires id < Run(env, Start(users, t), before).db.nextVersion
    requires Own(resend, id) == [Begin(id, u)] + (steps + [Commit(id)])
    ensures var w := Run(env, Start(users, t), before);
      ViewOf(Run(env, Start(users, t), before + resend), id)
        == ViewOf(StepCommit(env, Run(env, StepBegin(w, id, u), steps), id), id)
  {
    RunJoin(env, Start(users, t), before, resend);
    TransfersDoNotInterfere(env, users, t, before, resend, id);
    RunSent(env, Run(env, Start(users, t), before), steps, id, u);
  }

  lemma OpenSlotFacts(env: Env, users: map<UserId, User>, t: Time, before: seq<Action>, id: VersionId, u: UserId)
    requires var w := Run(env, Start(users, t), before); ReservedSlot(w.db, id, u, w.now).Ok?
    ensures var w := Run(env, Start(users, t), before);
      Good(env, w) && w.db.versions[id].expiresAt.Some? && EntriesOf(w.db.ledger, id) == [] && id < w.db.nextVersion
  {
    RunGood(env, Start(users, t), before);
    NoEntries(env, users, t, before, id);
    assert IsRow(Run(env, Start(users, t), before).db.versions[id]);
  }

  lemma SentView(env: Env, w: World, y: World, v: Version, now: Time, steps: seq<Action>, id: VersionId, u: UserId,
                 chunks: seq<Bytes>, layer: Layer)
    requires Good(env, w) && id !in w.inflight && ReservedSlot(w.db, id, u, w.now) == Ok(v)
    requires v.expiresAt.Some? && SweptInTime(w.now, v.expiresAt.value, steps)
    requires |Concat(chunks)| == v.size && env.hash(Concat(chunks)) == v.sha256
    requires AreSteps(steps, id, chunks, layer) && EntriesOf(w.db.ledger, id) == []
    requires y == Run(env, StepBegin(w, id, u), steps) && now == w.now + Elapsed(steps)
    ensures ViewOf(StepCommit(env, y, id), id)
         == Present(Filed(env, v, Concat(chunks)), Some(u), [Entry(u, id, v.size, CommitReason, now)], None, None)
  {
    PlacedAtLast(env, w, steps, id, u, chunks, layer, v.expiresAt.value);
    CommittedView(env, y, id, v, u, Concat(chunks), now);
  }

  lemma CommittedView(env: Env, y: World, id: VersionId, v: Version, u: UserId, bytes: Bytes, now: Time)
    requires IsReady(y, id, v, u, bytes, [], now) && |bytes| == v.size
    ensures ViewOf(StepCommit(env, y, id), id)
         == Present(Filed(env, v, bytes), Some(u), [Entry(u, id, v.size, CommitReason, now)], None, None)
  {
    CommitView(env, y, id);
  }

  // ----- after a crash -----

  /** Nothing that begins a transfer of the upload. */
  predicate NoneBegun(actions: seq<Action>, id: VersionId) {
    forall a | a in actions :: !(a.Begin? && a.id == id)
  }

  lemma {:induction false} StaysAway(env: Env, w: World, actions: seq<Action>, id: VersionId)
    requires id !in w.inflight && NoneBegun(actions, id)
    ensures id !in Run(env, w, actions).inflight
    decreases |actions|
  {
    if actions != [] {
      assert actions[0] in actions;
      NotBegun(env, w, actions[0], id);
      StaysAway(env, Step(env, w, actions[0]), actions[1..], id);
    }
  }

  lemma NotBegun(env: Env, w: World, a: Action, id: VersionId)
    requires id !in w.inflight && !(a.Begin? && a.id == id)
    ensures id !in Step(env, w, a).inflight
  {
  }

  /** A reservation that is still open is the row it was. */
  lemma OpenSlotIsUntouched(env: Env, users: map<UserId, User>, t: Time, before: seq<Action>, after: seq<Action>,
                            id: VersionId)
    requires id < Run(env, Start(users, t), before).db.nextVersion
    requires var db := Run(env, Start(users, t), before + after).db;
      id in db.versions && db.versions[id].state == Reserved
    ensures var w, w1 := Run(env, Start(users, t), before), Run(env, Start(users, t), before + after);
      id in w.db.versions && w1.db.versions[id] == w.db.versions[id]
  {
    VersionsOnlyMoveForward(env, users, t, before, after);
    RunSteady(env, Start(users, t), before);
    RunSteady(env, Start(users, t), before + after);
  }

  /** The attempts, the crash that cut them short, and what went on until the bytes are sent again. */
  function Interrupted(attempts: seq<Action>, torn: map<VersionId, nat>, meanwhile: seq<Action>): seq<Action> {
    attempts + ([Crash(torn)] + meanwhile)
  }

  lemma CrashEndsTransfers(env: Env, w: World, torn: map<VersionId, nat>, meanwhile: seq<Action>, id: VersionId)
    requires NoneBegun(meanwhile, id)
    ensures id !in Run(env, w, [Crash(torn)] + meanwhile).inflight
  {
    assert ([Crash(torn)] + meanwhile)[1..] == meanwhile;
    StaysAway(env, Step(env, w, Crash(torn)), meanwhile, id);
  }

  /** However far earlier attempts got at whatever else was going on, with their bytes torn by a crash
      or their object already in place, and whatever happened since: as long as the reservation is
      open when it begins, a resend of the right bytes leaves the row that was reserved, uploaded,
      with the one entry, and the files of a receive that nothing disturbed. */
  lemma RetryAfterCrash(env: Env, users: map<UserId, User>, t: Time, before: seq<Action>, attempts: seq<Action>,
                        torn: map<VersionId, nat>, meanwhile: seq<Action>, resend: seq<Action>, steps: seq<Action>,
                        id: VersionId, u: UserId, chunks: seq<Bytes>, layer: Layer)
    requires id < Run(env, Start(users, t), before).db.nextVersion && NoneBegun(meanwhile, id)
    requires var w := Run(env, Start(users, t), before + Interrupted(attempts, torn, meanwhile));
      && ReservedSlot(w.db, id, u, w.now).Ok?
      && |Concat(chunks)| == w.db.versions[id].size && env.hash(Concat(chunks)) == w.db.versions[id].sha256
      && (w.db.versions[id].expiresAt.Some? ==> SweptInTime(w.now, w.db.versions[id].expiresAt.value, steps))
    requires IsResend(Own(resend, id), steps, id, u, chunks, layer)
    ensures var db := Run(env, Start(users, t), before).db;
      var now := Run(env, Start(users, t), before + Interrupted(attempts, torn, meanwhile)).now;
      && id in db.versions
      && ViewOf(Run(env, Start(users, t), before + Interrupted(attempts, torn, meanwhile) + resend), id)
           == Present(Filed(env, db.versions[id], Concat(chunks)), Some(u),
                      [Entry(u, id, db.versions[id].size, CommitReason, now + Elapsed(steps))], None, None)
  {
    var past := before + Interrupted(attempts, torn, meanwhile);
    assert past == before + attempts + ([Crash(torn)] + meanwhile);
    RunJoin(env, Start(users, t), before + attempts, [Crash(torn)] + meanwhile);
    CrashEndsTransfers(env, Run(env, Start(users, t), before + attempts), torn, meanwhile, id);
    OpenSlotIsUntouched(env, users, t, before, Interrupted(attempts, torn, meanwhile), id);
    ResendLands(env, users, t, past, resend, steps, id, u, chunks, layer);
  }
}
