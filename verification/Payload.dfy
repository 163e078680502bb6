/** Manifests, payload trees and the two checks the store runs on a tree: sizes only, or hashes only. */
module Payload {

  type Byte = b: int | 0 <= b < 256
  type Bytes = seq<Byte>
  type Path = string

  /** An injective hash: a digest stands for exactly one byte string. */
  datatype Digest = Digest(preimage: Bytes)

  function Sha256(data: Bytes): Digest { Digest(data) }

  datatype Entry =
    | File(path: Path, size: nat, sha256: Digest)
    | Dir(path: Path)

  type Manifest = seq<Entry>

  datatype Node = Regular(bytes: Bytes) | Folder

  /** One payload tree: the manifest paths that exist in it. */
  type Tree = map<Path, Node>

  /** Manifest validation rejects a path listed twice. */
  predicate DistinctPaths(m: Manifest) {
    forall i, j | 0 <= i < j < |m| :: m[i].path != m[j].path
  }

  /** The size check: every file at its declared size, every directory a directory. */
  predicate Complete(m: Manifest, t: Tree) {
    forall e | e in m ::
      e.path in t && (if e.Dir? then t[e.path].Folder? else t[e.path].Regular? && |t[e.path].bytes| == e.size)
  }

  /** The hash check: every file's whole content hashes to its digest, every directory a directory. */
  predicate Verified(m: Manifest, t: Tree) {
    forall e | e in m ::
      e.path in t && (if e.Dir? then t[e.path].Folder? else t[e.path].Regular? && Sha256(t[e.path].bytes) == e.sha256)
  }

  /** Nothing in the tree contradicts the manifest's digests, though entries may be missing. */
  ghost predicate Sound(m: Manifest, t: Tree) {
    forall e | e in m && e.File? && e.path in t && t[e.path].Regular? :: Sha256(t[e.path].bytes) == e.sha256
  }

  /** Every declared size is the length of the content the digest stands for. */
  predicate Honest(m: Manifest) {
    forall e | e in m && e.File? :: e.size == |e.sha256.preimage|
  }

  /** Some file is declared shorter than its content: it never fits. */
  predicate Hopeless(m: Manifest) { exists e | e in m :: e.File? && e.size < |e.sha256.preimage| }

  /** Manifests whose uploads the store keeps safe: those with true sizes, and those that can never be published. */
  predicate Dependable(m: Manifest) { Honest(m) || Hopeless(m) }

  /** A tree that passes the hash check passes the size check exactly when the manifest is honest. */
  lemma VerifiedIsCompleteIffHonest(m: Manifest, t: Tree)
    requires Verified(m, t)
    ensures Complete(m, t) <==> Honest(m)
  {
    if Complete(m, t) {
      forall e | e in m && e.File? ensures e.size == |e.sha256.preimage| {
        assert e.path in t;
      }
    }
  }

  /** Where every tree comes from a verified one, checking sizes alone is as good as hashing. */
  lemma CompleteAndSoundIsVerified(m: Manifest, t: Tree)
    requires Complete(m, t) && Sound(m, t)
    ensures Verified(m, t)
  {
  }

  // ---------------------------------------------------------------- receipts

  datatype Cell = Cell(path: Path, offset: nat)

  datatype Receipt = Receipt(length: nat, sha256: Digest)

  type Receipts = map<Cell, Receipt>

  /** The staged bytes at the receipt's range hash to the receipt's digest. */
  predicate Good(t: Tree, c: Cell, r: Receipt) {
    && c.path in t && t[c.path].Regular?
    && c.offset + r.length <= |t[c.path].bytes|
    && Sha256(t[c.path].bytes[c.offset..c.offset + r.length]) == r.sha256
  }

  predicate AllGood(rc: Receipts, t: Tree) {
    forall c | c in rc :: Good(t, c, rc[c])
  }

  /** The content of a file after `data` is written at `offset`; a gap reads as zeros. */
  function Patched(was: Bytes, offset: nat, data: Bytes): (r: Bytes)
    ensures |r| == if offset + |data| < |was| then |was| else offset + |data|
    ensures r[offset..offset + |data|] == data
    ensures forall i | 0 <= i < |was| && !(offset <= i < offset + |data|) :: r[i] == was[i]
  {
    var padded := if offset <= |was| then was else was + seq(offset - |was|, _ => 0);
    padded[..offset] + data + (if offset + |data| <= |padded| then padded[offset + |data|..] else [])
  }

  /** Writing one range leaves a receipt for a range beside it as good as it was. */
  lemma PatchKeepsGood(t: Tree, path: Path, offset: nat, data: Bytes, c: Cell, r: Receipt)
    requires Good(t, c, r) && path in t && t[path].Regular?
    requires c.path == path ==> c.offset + r.length <= offset || offset + |data| <= c.offset
    ensures Good(t[path := Regular(Patched(t[path].bytes, offset, data))], c, r)
  {
    if c.path == path {
      var was, now := t[path].bytes, Patched(t[path].bytes, offset, data);
      assert now[c.offset..c.offset + r.length] == was[c.offset..c.offset + r.length];
    }
  }
}
