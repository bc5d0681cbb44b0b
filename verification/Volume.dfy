/** Files. Staging files by upload and objects by key, with rename as one step; the capped streaming
    write with its measurements, and promotion, as methods proved equal to functions of the volume. */
module Storage {
  import opened Basics
  import opened Schema
  import opened Keys

  /** The digest is not looked into: any function from byte strings to hexadecimal digests. */
  type Hash = Bytes -> Sha256

  datatype StoredBlob = StoredBlob(sha256: Sha256, size: nat)

  /** The filesystem: staging files by upload, artifacts by key. */
  datatype Volume = Volume(staging: map<VersionId, Bytes>, artifacts: map<string, Bytes>)

  function Concat(chunks: seq<Bytes>): Bytes {
    if chunks == [] then [] else Concat(chunks[..|chunks| - 1]) + chunks[|chunks| - 1]
  }

  lemma ConcatSnoc(chunks: seq<Bytes>, chunk: Bytes)
    ensures Concat(chunks + [chunk]) == Concat(chunks) + chunk
  {
    assert (chunks + [chunk])[..|chunks|] == chunks;
  }

  lemma {:induction false} ConcatPrefix(chunks: seq<Bytes>, k: nat)
    requires k <= |chunks|
    ensures |Concat(chunks[..k])| <= |Concat(chunks)|
  {
    if k == |chunks| {
      assert chunks[..k] == chunks;
    } else {
      assert chunks[..|chunks| - 1][..k] == chunks[..k];
      ConcatPrefix(chunks[..|chunks| - 1], k);
    }
  }

  function Staged(hash: Hash, chunks: seq<Bytes>, cap: nat): Result<StoredBlob, Refusal> {
    var bytes := Concat(chunks);
    if |bytes| <= cap then Ok(StoredBlob(hash(bytes), |bytes|)) else Err(PastReservation(cap))
  }

  function StageAt(vol: Volume, id: VersionId, chunks: seq<Bytes>, cap: nat): Volume {
    var bytes := Concat(chunks);
    if |bytes| <= cap then vol.(staging := vol.staging[id := bytes]) else DiscardAt(vol, id)
  }

  function DiscardAt(vol: Volume, id: VersionId): Volume {
    vol.(staging := vol.staging - {id})
  }

  /** Bytes already stored under the key stay; otherwise the staged file, if there is one, is renamed
      onto it. */
  function PromoteAt(vol: Volume, id: VersionId, sha256: Sha256): Volume {
    var key := ObjectKey(sha256);
    if key in vol.artifacts || id !in vol.staging then DiscardAt(vol, id)
    else Volume(vol.staging - {id}, vol.artifacts[key := vol.staging[id]])
  }

  class VolumeStorage {
    const hash: Hash
    var staging: map<VersionId, Bytes>
    var artifacts: map<string, Bytes>

    constructor (hash: Hash)
      ensures this.hash == hash && View() == Volume(map[], map[])
    {
      this.hash := hash;
      staging, artifacts := map[], map[];
    }

    function View(): Volume
      reads this
    {
      Volume(staging, artifacts)
    }

    /** Write the stream to the staging file, hashing and counting as it lands. `taken` is how many
        chunks were pulled: on refusal the last of them is the first to pass the cap, and what was
        written before it stays within the cap. */
    method Write(id: VersionId, chunks: seq<Bytes>, cap: nat)
      returns (r: Result<StoredBlob, Refusal>, taken: nat)
      modifies this
      ensures artifacts == old(artifacts)
      ensures r == Staged(hash, chunks, cap)
      ensures taken <= |chunks| && staging.Keys == old(staging).Keys + {id}
      ensures staging == old(staging)[id := staging[id]] && |staging[id]| <= cap
      ensures r.Ok? ==> taken == |chunks| && staging[id] == Concat(chunks)
      ensures r.Err? ==> 0 < taken && staging[id] == Concat(chunks[..taken - 1])
      ensures r.Err? ==> |Concat(chunks[..taken])| > cap
    {
      var fed: Bytes := [];
      var written := 0;
      taken := 0;
      staging := staging[id := []];
      while taken < |chunks|
        invariant taken <= |chunks|
        invariant fed == Concat(chunks[..taken]) && written == |fed| <= cap
        invariant staging == old(staging)[id := fed] && artifacts == old(artifacts)
      {
        var chunk := chunks[taken];
        written := written + |chunk|;
        taken := taken + 1;
        assert chunks[..taken] == chunks[..taken - 1] + [chunk];
        ConcatSnoc(chunks[..taken - 1], chunk);
        if written > cap {
          ConcatPrefix(chunks, taken);
          r := Err(PastReservation(cap));
          return;
        }
        fed := fed + chunk;
        staging := staging[id := fed];
      }
      assert chunks[..taken] == chunks;
      r := Ok(StoredBlob(hash(fed), written));
    }

    method Stage(id: VersionId, chunks: seq<Bytes>, cap: nat) returns (r: Result<StoredBlob, Refusal>)
      modifies this
      ensures r == Staged(hash, chunks, cap)
      ensures View() == StageAt(old(View()), id, chunks, cap)
    {
      var taken;
      r, taken := Write(id, chunks, cap);
      if r.Err? {
        Discard(id);
      }
    }

    /** The object's key, or nothing: a rename that finds no staging file fails and changes nothing. */
    method Promote(id: VersionId, sha256: Sha256) returns (r: Option<string>)
      modifies this
      ensures View() == PromoteAt(old(View()), id, sha256)
      ensures r == if ObjectKey(sha256) in artifacts then Some(ObjectKey(sha256)) else None
      ensures r.None? ==> id !in old(staging) && View() == old(View())
    {
      var key := ObjectKey(sha256);
      if key in artifacts {
        Discard(id);
        return Some(key);
      }
      if id !in staging {
        assert staging - {id} == staging;
        return None;
      }
      artifacts := artifacts[key := staging[id]];
      staging := staging - {id};
      r := Some(key);
    }

    method Discard(id: VersionId)
      modifies this
      ensures View() == DiscardAt(old(View()), id)
    {
      staging := staging - {id};
    }
  }
}
