/** The receive phase in one step and in its smallest steps are the same operation: what phase two
    does to the world is what its steps do when nothing comes between them. */
module Streaming {
  import opened Schema
  import opened Keys
  import opened Storage
  import opened Receiving
  import opened Protocol

  function Writes(id: VersionId, chunks: seq<Bytes>): seq<Action> {
    if chunks == [] then [] else [Write(id, chunks[0])] + Writes(id, chunks[1..])
  }

  function Finish(id: VersionId, layer: Layer): seq<Action> {
    [Sync(id), Verify(id, layer), Probe(id), Place(id), Commit(id)]
  }

  function Script(id: VersionId, u: UserId, chunks: seq<Bytes>, layer: Layer): seq<Action> {
    [Begin(id, u)] + (Writes(id, chunks) + Finish(id, layer))
  }

  lemma {:induction false} ConcatHead(chunks: seq<Bytes>)
    requires chunks != []
    ensures Concat(chunks) == chunks[0] + Concat(chunks[1..])
    decreases |chunks|
  {
    var n := |chunks| - 1;
    if n == 0 {
      assert chunks[..0] == [] && chunks[1..] == [];
      assert Concat(chunks) == [] + chunks[0];
      assert Concat(chunks[1..]) == [];
    } else {
      var front, tail := chunks[..n], chunks[1..];
      ConcatHead(front);
      assert front[1..] == tail[..n - 1] && tail[n - 1] == chunks[n] && front[0] == chunks[0];
      assert Concat(tail) == Concat(tail[..n - 1]) + tail[n - 1];
      assert Concat(chunks) == Concat(front) + chunks[n];
    }
  }

  /** A transfer that is not there takes no further step. */
  lemma {:induction false} WritesIdle(env: Env, w: World, id: VersionId, chunks: seq<Bytes>)
    requires !InPhase(w, id, Writing)
    ensures Run(env, w, Writes(id, chunks)) == w
    decreases |chunks|
  {
    if chunks != [] {
      assert Writes(id, chunks)[1..] == Writes(id, chunks[1..]);
      WritesIdle(env, w, id, chunks[1..]);
    }
  }

  function AllWritten(w: World, id: VersionId, bytes: Bytes): World
    requires id in w.inflight
  {
    w.(volume := w.volume.(staging := w.volume.staging[id := bytes]),
       inflight := w.inflight[id := w.inflight[id].(written := bytes)])
  }

  function CutOff(w: World, id: VersionId): World {
    Ended(w.(volume := DiscardAt(w.volume, id)), id)
  }

  /** The file at the staging path is what the transfer wrote so far, within its cap. */
  predicate IsStreaming(w: World, id: VersionId) {
    InPhase(w, id, Writing) && id in w.volume.staging && w.volume.staging[id] == w.inflight[id].written
    && |w.inflight[id].written| <= w.inflight[id].size
  }

  lemma WriteLands(env: Env, w: World, id: VersionId, chunk: Bytes)
    requires IsStreaming(w, id)
    ensures var bytes := w.inflight[id].written + chunk;
      Step(env, w, Write(id, chunk))
        == if |bytes| <= w.inflight[id].size then AllWritten(w, id, bytes) else CutOff(w, id)
  {
  }

  lemma WrittenOver(w: World, id: VersionId, first: Bytes, bytes: Bytes)
    requires id in w.inflight
    ensures AllWritten(AllWritten(w, id, first), id, bytes) == AllWritten(w, id, bytes)
    ensures CutOff(AllWritten(w, id, first), id) == CutOff(w, id)
  {
    var w1 := AllWritten(w, id, first);
    assert w1.inflight[id := w1.inflight[id].(written := bytes)] == AllWritten(w, id, bytes).inflight;
    assert w1.volume.staging[id := bytes] == AllWritten(w, id, bytes).volume.staging;
    assert w1.inflight - {id} == w.inflight - {id};
    assert w1.volume.staging - {id} == w.volume.staging - {id};
  }

  lemma NothingWritten(w: World, id: VersionId)
    requires IsStreaming(w, id)
    ensures AllWritten(w, id, w.inflight[id].written) == w
  {
    var t := w.inflight[id];
    assert w.volume.staging[id := t.written] == w.volume.staging;
    assert w.inflight[id := t] == w.inflight;
  }

  /** Chunk by chunk, the stream lands as its concatenation, or is cut off when that is too long. */
  lemma {:induction false} WritesLand(env: Env, w: World, id: VersionId, chunks: seq<Bytes>)
    requires IsStreaming(w, id)
    ensures var bytes := w.inflight[id].written + Concat(chunks);
      Run(env, w, Writes(id, chunks))
        == if |bytes| <= w.inflight[id].size then AllWritten(w, id, bytes) else CutOff(w, id)
    decreases |chunks|
  {
    var written := w.inflight[id].written;
    if chunks == [] {
      assert written + Concat(chunks) == written;
      NothingWritten(w, id);
    } else {
      ConcatHead(chunks);
      var first, rest := written + chunks[0], Concat(chunks[1..]);
      assert written + Concat(chunks) == first + rest;
      assert Writes(id, chunks)[0] == Write(id, chunks[0]) && Writes(id, chunks)[1..] == Writes(id, chunks[1..]);
      var w1 := Step(env, w, Write(id, chunks[0]));
      WriteLands(env, w, id, chunks[0]);
      if |first| > w.inflight[id].size {
        WritesIdle(env, w1, id, chunks[1..]);
      } else {
        WritesLand(env, w1, id, chunks[1..]);
        WrittenOver(w, id, first, first + rest);
      }
    }
  }

  lemma RunFinish(env: Env, w: World, id: VersionId, layer: Layer)
    ensures Run(env, w, Finish(id, layer)) ==
      StepCommit(env, StepPlace(env, StepProbe(env, StepVerify(env, StepSync(w, id), id, layer), id), id), id)
  {
    var f := Finish(id, layer);
    var w1 := StepSync(w, id);
    var w2 := StepVerify(env, w1, id, layer);
    var w3 := StepProbe(env, w2, id);
    var w4 := StepPlace(env, w3, id);
    assert Run(env, w, f) == Run(env, w1, f[1..]);
    assert f[1..][1..] == f[2..] && f[2..][1..] == f[3..] && f[3..][1..] == f[4..] && f[4..][1..] == [];
    assert Run(env, w1, f[1..]) == Run(env, w2, f[2..]);
    assert Run(env, w2, f[2..]) == Run(env, w3, f[3..]);
    assert Run(env, w3, f[3..]) == Run(env, w4, f[4..]);
    assert Run(env, w4, f[4..]) == Run(env, StepCommit(env, w4, id), []);
  }

  /** From a fully written staging file to the committed row: the last five steps in one. */
  lemma FinishLands(env: Env, w: World, id: VersionId, layer: Layer)
    requires IsStreaming(w, id) && id in w.db.versions
    ensures var t := w.inflight[id];
      var blob := StoredBlob(env.hash(t.written), |t.written|);
      var m := w.measured + {t.written};
      Run(env, w, Finish(id, layer)) ==
        if CheckMeasured(t.size, t.sha256, blob).Some? then
          CutOff(w.(db := if layer.SessionLayer? then Abandoned(w.db, id) else w.db, measured := m), id)
        else
          Ended(w.(db := Charged(w.db, id, t.user, ObjectKey(blob.sha256), blob.size, w.now),
                   volume := PromoteAt(w.volume, id, blob.sha256), measured := m), id)
  {
    RunFinish(env, w, id, layer);
    var t := w.inflight[id];
    var w1 := StepSync(w, id);
    var w2 := StepVerify(env, w1, id, layer);
    var w3 := StepProbe(env, w2, id);
    var w4 := StepPlace(env, w3, id);
    var w5 := StepCommit(env, w4, id);
    if CheckMeasured(t.size, t.sha256, StoredBlob(env.hash(t.written), |t.written|)).Some? {
      assert w1.inflight - {id} == w.inflight - {id};
      assert w5 == w2;
    } else {
      assert w2.inflight[id] == t.(phase := Verified);
      assert w4.inflight[id] == t.(phase := Placed);
      assert w4.inflight - {id} == w.inflight - {id};
      assert w4.volume == PromoteAt(w.volume, id, env.hash(t.written));
    }
  }

  /** Refinement: receiving in one step is exactly the script of its steps, on every input, in
      every world where no other transfer of the same upload is in flight: same tables, same
      files, same refusal, on either layer. */
  lemma UploadIsScript(env: Env, w: World, id: VersionId, u: UserId, chunks: seq<Bytes>, layer: Layer)
    requires id !in w.inflight
    ensures Step(env, w, Upload(id, u, chunks, layer)) == Run(env, w, Script(id, u, chunks, layer))
  {
    var w1 := StepBegin(w, id, u);
    var rest := Writes(id, chunks) + Finish(id, layer);
    assert Script(id, u, chunks, layer)[1..] == rest;
    RunJoin(env, w1, Writes(id, chunks), Finish(id, layer));
    var slot := ReservedSlot(w.db, id, u, w.now);
    if slot.Err? {
      WritesIdle(env, w, id, chunks);
      RunFinish(env, w, id, layer);
    } else {
      UploadLands(env, w, id, u, chunks, layer);
    }
  }

  lemma UploadLands(env: Env, w: World, id: VersionId, u: UserId, chunks: seq<Bytes>, layer: Layer)
    requires id !in w.inflight && ReservedSlot(w.db, id, u, w.now).Ok?
    ensures Step(env, w, Upload(id, u, chunks, layer))
         == Run(env, Run(env, StepBegin(w, id, u), Writes(id, chunks)), Finish(id, layer))
  {
    var w1 := StepBegin(w, id, u);
    var bytes := Concat(chunks);
    assert [] + bytes == bytes;
    WritesLand(env, w1, id, chunks);
    var w2 := Run(env, w1, Writes(id, chunks));
    assert w1.inflight - {id} == w.inflight;
    if |bytes| <= w1.inflight[id].size {
      assert w2.volume.staging == w.volume.staging[id := bytes];
      assert w2.inflight - {id} == w.inflight;
      FinishLands(env, w2, id, layer);
    } else {
      assert w1.volume.staging - {id} == w.volume.staging - {id};
      RunFinish(env, w2, id, layer);
    }
  }

  /** Where a stream is cut cannot change anything: two transfers of the same bytes, in however many
      writes, end in the same world, refused or not. */
  lemma ChunkingIsIrrelevant(env: Env, w: World, id: VersionId, u: UserId, a: seq<Bytes>, b: seq<Bytes>, layer: Layer)
    requires id !in w.inflight && Concat(a) == Concat(b)
    ensures Run(env, w, Script(id, u, a, layer)) == Run(env, w, Script(id, u, b, layer))
  {
    UploadIsScript(env, w, id, u, a, layer);
    UploadIsScript(env, w, id, u, b, layer);
  }
}
