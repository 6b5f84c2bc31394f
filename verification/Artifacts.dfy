/** Content-addressed artifacts: identities that separate every role, and a store that never rebinds one. */
module Artifacts {
  import opened Contracts
  import opened Bytes

  datatype Role = Role(kind: seq<byte>, producer: seq<byte>, occurrence: Option<seq<byte>>, suffix: seq<byte>, mediaType: seq<byte>)

  datatype Reference = Reference(id: string, role: Role, digest: seq<byte>, size: nat)

  /** The components hashed into an identity; a missing occurrence and an empty one differ. */
  function Components(r: Role, digest: seq<byte>): seq<seq<byte>> {
    [r.kind, r.producer, if r.occurrence.None? then [0] else [1] + r.occurrence.value, r.suffix, r.mediaType, digest]
  }

  predicate Framable(r: Role, digest: seq<byte>) {
    forall i :: 0 <= i < 6 ==> |Components(r, digest)[i]| < LIMIT64
  }

  /** Equal framed components mean the same role and the same payload digest. */
  lemma IdentityIsUnambiguous(a: Role, x: seq<byte>, b: Role, y: seq<byte>)
    requires Framable(a, x) && Framable(b, y) && Frames(Components(a, x)) == Frames(Components(b, y))
    ensures a == b && x == y
  {
    var p, q := Components(a, x), Components(b, y);
    FramesSplit(p, q);
    assert p[0] == q[0] && p[1] == q[1] && p[2] == q[2] && p[3] == q[3] && p[4] == q[4] && p[5] == q[5];
    if a.occurrence.Some? && b.occurrence.Some? { assert a.occurrence.value == p[2][1..] && b.occurrence.value == q[2][1..]; }
    assert p[2][0] == if a.occurrence.None? then 0 else 1;
  }

  /** The digest of a payload and the identity of a framed component list, both idealized as injective. */
  datatype Hashes = Hashes(payload: seq<byte> -> seq<byte>, identity: seq<byte> -> string)

  ghost predicate Ideal(h: Hashes) {
    && (forall x, y :: h.payload(x) == h.payload(y) ==> x == y)
    && (forall x, y :: h.identity(x) == h.identity(y) ==> x == y)
  }

  function Identity(h: Hashes, r: Role, digest: seq<byte>): string {
    h.identity(Frames(Components(r, digest)))
  }

  type Files = map<(string, seq<byte>), seq<byte>>

  /** The reference's own file is there and holds the referenced bytes. */
  predicate Authentic(h: Hashes, files: Files, r: Reference) {
    && r.id == Identity(h, r.role, r.digest) && Framable(r.role, r.digest)
    && (r.id, r.role.suffix) in files && h.payload(files[(r.id, r.role.suffix)]) == r.digest
    && r.size == |files[(r.id, r.role.suffix)]|
  }

  /** A file for an identity already referenced belongs to the same role and payload. */
  lemma SameIdentitySameReference(h: Hashes, files: Files, r: Reference, role: Role, payload: seq<byte>)
    requires Ideal(h) && Authentic(h, files, r) && Framable(role, h.payload(payload))
    requires r.id == Identity(h, role, h.payload(payload))
    ensures r == Reference(r.id, role, h.payload(payload), |payload|) && files[(r.id, role.suffix)] == payload
  {
    IdentityIsUnambiguous(r.role, r.digest, role, h.payload(payload));
  }

  ghost predicate AllAuthentic(h: Hashes, files: Files, references: map<string, Reference>) {
    forall id {:trigger references[id]} :: id in references ==> references[id].id == id && Authentic(h, files, references[id])
  }

  /** Adding a payload under its own identity disturbs nothing that was there. */
  lemma AddKeeps(h: Hashes, files: Files, references: map<string, Reference>, role: Role, payload: seq<byte>)
    requires Ideal(h) && AllAuthentic(h, files, references) && Framable(role, h.payload(payload))
    requires var path := (Identity(h, role, h.payload(payload)), role.suffix); path in files ==> files[path] == payload
    ensures var id := Identity(h, role, h.payload(payload));
      var reference := Reference(id, role, h.payload(payload), |payload|);
      && AllAuthentic(h, files[(id, role.suffix) := payload], references[id := reference])
      && (id in references ==> references[id] == reference)
  {
    var id := Identity(h, role, h.payload(payload));
    if id in references { SameIdentitySameReference(h, files, references[id], role, payload); }
    var files', references' := files[(id, role.suffix) := payload], references[id := Reference(id, role, h.payload(payload), |payload|)];
    forall x | x in references' ensures references'[x].id == x && Authentic(h, files', references'[x]) {
      if x != id { assert references[x].id == x; }
    }
  }

  datatype Written = Stored(reference: Reference) | Refused

  class ArtifactStore {
    const h: Hashes
    const limit: nat
    var files: Files
    var references: map<string, Reference>

    /** Every reference authenticates the bytes of its own file. */
    ghost predicate Valid()
      reads this
    {
      Ideal(h) && AllAuthentic(h, files, references)
    }

    constructor (h: Hashes, limit: nat)
      requires Ideal(h)
      ensures Valid() && this.h == h && this.limit == limit && references == map[] && files == map[]
    {
      this.h, this.limit := h, limit;
      files, references := map[], map[];
    }

    /**
      Writes one payload under its role.  A refusal changes nothing; otherwise exactly this role and payload
      gain a reference, no other file or reference changes, and no reference ever names other bytes.
     */
    method WriteBytes(role: Role, payload: seq<byte>, acceptable: bool) returns (w: Written)
      requires Valid() && Framable(role, h.payload(payload))
      modifies this
      ensures Valid()
      ensures w.Stored? ==> acceptable && |payload| <= limit
      ensures w.Refused? ==> files == old(files) && references == old(references)
      ensures w.Stored? ==>
        && w.reference == Reference(Identity(h, role, h.payload(payload)), role, h.payload(payload), |payload|)
        && references == old(references)[w.reference.id := w.reference]
        && files == old(files)[(w.reference.id, role.suffix) := payload]
      ensures forall id :: id in old(references) ==> id in references && references[id] == old(references)[id]
      ensures forall f :: f in old(files) ==> f in files && files[f] == old(files)[f]
    {
      if |payload| > limit || !acceptable { return Refused; }
      var digest := h.payload(payload);
      var id := Identity(h, role, digest);
      var path := (id, role.suffix);
      if path in files && files[path] != payload { return Refused; }
      AddKeeps(h, files, references, role, payload);
      var reference := Reference(id, role, digest, |payload|);
      files := files[path := payload];
      references := references[id := reference];
      return Stored(reference);
    }
  }
}
