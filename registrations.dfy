/** The registration store: simulated client identities, the uniform pick `getRandReg`,
    and the snapshot entries `Snapshot` writes and `Restore` reads back. Key parsing and
    signer construction are foreign calls, so they enter as the predicates `parses` (does
    `x509.ParsePKCS1PrivateKey` accept these bytes?) and `signerOk` (does
    `jose.NewSigner(RS256, key)` succeed?). */
module Registrations {
  import opened Wrappers

  newtype byte = x: int | 0 <= x < 256

  /** An RSA private key, known by its PKCS#1 DER encoding: what
      `x509.MarshalPKCS1PrivateKey` writes and `x509.ParsePKCS1PrivateKey` reads back. */
  datatype PrivateKey = PrivateKey(der: seq<byte>)

  /** An RS256 JWS signer; it is bound to the key it was built from. */
  datatype Signer = Signer(key: PrivateKey)

  /** A simulated client identity (Go's `registration`). `hasLock` records whether its
      `iMu` read-write lock was set; the lock itself belongs to the concurrency that this
      sequential model leaves out. */
  datatype Registration = Registration(
    key: PrivateKey,
    signer: Signer,
    hasLock: bool,
    auths: seq<string>,
    certs: seq<string>)

  /** One entry of the snapshot file (Go's `rawRegistration`). */
  datatype RawRegistration = RawRegistration(certs: seq<string>, auths: seq<string>, rawKey: seq<byte>)

  /** The value handed to `json.Marshal` and read by `json.Unmarshal` (Go's `snapshot`). */
  datatype SnapshotRecord = SnapshotRecord(registrations: seq<RawRegistration>)

  /** `getRandReg` with the draw `rand.Intn(len(regs))` supplied as `draw`: not found on an
      empty store, otherwise the registration at the drawn index. */
  function GetRandReg(regs: seq<Registration>, draw: int): (r: Option<Registration>)
    requires |regs| > 0 ==> 0 <= draw < |regs|
    ensures r.None? <==> |regs| == 0
    ensures r.Some? ==> r.value in regs && r.value == regs[draw]
  {
    if |regs| == 0 then None else Some(regs[draw])
  }

  /** Every member of a non-empty store is what `GetRandReg` returns for some draw, and each
      draw selects exactly one member, so a uniform draw is a uniform pick. */
  lemma GetRandRegReachesAll(regs: seq<Registration>, i: int)
    requires 0 <= i < |regs|
    ensures exists draw :: 0 <= draw < |regs| && GetRandReg(regs, draw) == Some(regs[i])
  {
    assert GetRandReg(regs, i) == Some(regs[i]);
  }

  // ---------------------------------------------------------------- Restore

  /** `Restore` keeps an entry when its key bytes parse and a signer can be built. */
  predicate Restorable(e: RawRegistration, parses: seq<byte> -> bool, signerOk: PrivateKey -> bool)
  {
    parses(e.rawKey) && signerOk(PrivateKey(e.rawKey))
  }

  /** The registration rebuilt from a kept entry: its key, a signer for that key, a fresh
      lock, and the entry's certificates and authorizations unchanged. */
  function Rebuild(e: RawRegistration): Registration
  {
    var key := PrivateKey(e.rawKey);
    Registration(key, Signer(key), true, e.auths, e.certs)
  }

  /** The registrations `Restore` appends for `entries`, in entry order, skipping every
      entry that is not restorable. */
  function Restored(entries: seq<RawRegistration>, parses: seq<byte> -> bool, signerOk: PrivateKey -> bool): seq<Registration>
  {
    if entries == [] then []
    else
      var init := entries[..|entries| - 1];
      var e := entries[|entries| - 1];
      Restored(init, parses, signerOk) + (if Restorable(e, parses, signerOk) then [Rebuild(e)] else [])
  }

  /** Restoring a concatenation restores each part in turn. */
  lemma {:induction false} RestoredAppend(a: seq<RawRegistration>, b: seq<RawRegistration>,
                                          parses: seq<byte> -> bool, signerOk: PrivateKey -> bool)
    ensures Restored(a + b, parses, signerOk) == Restored(a, parses, signerOk) + Restored(b, parses, signerOk)
    decreases |b|
  {
    if b == [] {
      assert a + b == a;
    } else {
      var init := b[..|b| - 1];
      assert (a + b)[..|a + b| - 1] == a + init;
      assert (a + b)[|a + b| - 1] == b[|b| - 1];
      RestoredAppend(a, init, parses, signerOk);
    }
  }

  /** A single entry is restored exactly when it is restorable. */
  lemma RestoredSingle(e: RawRegistration, parses: seq<byte> -> bool, signerOk: PrivateKey -> bool)
    ensures Restored([e], parses, signerOk) == if Restorable(e, parses, signerOk) then [Rebuild(e)] else []
  {
    assert [e][..0] == [];
  }

  /** A registration is restored exactly when it is rebuilt from some restorable entry. */
  lemma {:induction false} RestoredMembers(entries: seq<RawRegistration>, parses: seq<byte> -> bool,
                                           signerOk: PrivateKey -> bool, x: Registration)
    ensures x in Restored(entries, parses, signerOk) <==>
      exists i :: 0 <= i < |entries| && Restorable(entries[i], parses, signerOk) && x == Rebuild(entries[i])
    decreases |entries|
  {
    if entries != [] {
      var m := |entries| - 1;
      var init := entries[..m];
      RestoredMembers(init, parses, signerOk, x);
      if exists i :: 0 <= i < |entries| && Restorable(entries[i], parses, signerOk) && x == Rebuild(entries[i]) {
        var i :| 0 <= i < |entries| && Restorable(entries[i], parses, signerOk) && x == Rebuild(entries[i]);
        if i < m {
          assert init[i] == entries[i];
        }
      }
      if x in Restored(init, parses, signerOk) {
        var i :| 0 <= i < m && Restorable(init[i], parses, signerOk) && x == Rebuild(init[i]);
        assert entries[i] == init[i];
      }
    }
  }

  /** When every entry is restorable, each one comes back, in order. */
  lemma {:induction false} RestoredAllKept(entries: seq<RawRegistration>, parses: seq<byte> -> bool,
                                           signerOk: PrivateKey -> bool)
    requires forall i :: 0 <= i < |entries| ==> Restorable(entries[i], parses, signerOk)
    ensures |Restored(entries, parses, signerOk)| == |entries|
    ensures forall i :: 0 <= i < |entries| ==> Restored(entries, parses, signerOk)[i] == Rebuild(entries[i])
    decreases |entries|
  {
    if entries != [] {
      var init := entries[..|entries| - 1];
      RestoredAllKept(init, parses, signerOk);
    }
  }

  /** A sequence is its part before `b`, its element at `b` and its part after `b`; stated
      once so that `SkipsUnrestorable` stays cheap for the solver. */
  lemma SplitAt(entries: seq<RawRegistration>, b: int)
    requires 0 <= b < |entries|
    ensures entries == (entries[..b] + [entries[b]]) + entries[b + 1..]
  {
  }

  /** An entry that is not restorable is skipped without disturbing the others: the result
      is what restoring the entries without it gives. */
  lemma SkipsUnrestorable(entries: seq<RawRegistration>, b: int, parses: seq<byte> -> bool,
                          signerOk: PrivateKey -> bool)
    requires 0 <= b < |entries| && !Restorable(entries[b], parses, signerOk)
    ensures Restored(entries, parses, signerOk) == Restored(entries[..b] + entries[b + 1..], parses, signerOk)
  {
    var before, bad, after := entries[..b], [entries[b]], entries[b + 1..];
    SplitAt(entries, b);
    RestoredSingle(entries[b], parses, signerOk);
    calc {
      Restored(entries, parses, signerOk);
    == { RestoredAppend(before + bad, after, parses, signerOk); }
      Restored(before + bad, parses, signerOk) + Restored(after, parses, signerOk);
    == { RestoredAppend(before, bad, parses, signerOk); }
      Restored(before, parses, signerOk) + Restored(after, parses, signerOk);
    == { RestoredAppend(before, after, parses, signerOk); }
      Restored(before + after, parses, signerOk);
    }
  }

  /** Three entries with one corrupt key give exactly two registrations, the other two. */
  lemma OneCorruptOfThree(e0: RawRegistration, e1: RawRegistration, e2: RawRegistration,
                          parses: seq<byte> -> bool, signerOk: PrivateKey -> bool)
    requires Restorable(e0, parses, signerOk) && Restorable(e2, parses, signerOk)
    requires !parses(e1.rawKey)
    ensures Restored([e0, e1, e2], parses, signerOk) == [Rebuild(e0), Rebuild(e2)]
  {
    SkipsUnrestorable([e0, e1, e2], 1, parses, signerOk);
    assert [e0, e1, e2][..1] + [e0, e1, e2][2..] == [e0, e2];
    RestoredAllKept([e0, e2], parses, signerOk);
  }

  /** `Restore` as written: the registration literal leaves `iMu` nil, so no restored
      registration carries a lock. */
  function RestoredAsWritten(entries: seq<RawRegistration>, parses: seq<byte> -> bool, signerOk: PrivateKey -> bool): (r: seq<Registration>)
    ensures |r| == |Restored(entries, parses, signerOk)|
    ensures forall i :: 0 <= i < |r| ==> !r[i].hasLock
    ensures forall i :: 0 <= i < |r| ==>
      var kept := Restored(entries, parses, signerOk)[i];
      r[i].key == kept.key && r[i].signer == kept.signer && r[i].auths == kept.auths && r[i].certs == kept.certs
  {
    var kept := Restored(entries, parses, signerOk);
    seq(|kept|, i requires 0 <= i < |kept| => kept[i].(hasLock := false))
  }

  /** Restored as written, a registration has no lock; restored as intended, it has one. */
  lemma RestoredLocks(entries: seq<RawRegistration>, parses: seq<byte> -> bool, signerOk: PrivateKey -> bool, x: Registration)
    ensures x in RestoredAsWritten(entries, parses, signerOk) ==> !x.hasLock
    ensures x in Restored(entries, parses, signerOk) ==> x.hasLock
    ensures |RestoredAsWritten(entries, parses, signerOk)| == |Restored(entries, parses, signerOk)|
  {
    RestoredMembers(entries, parses, signerOk, x);
  }

  // ---------------------------------------------------------------- Snapshot

  /** The snapshot entry of one registration: its certificates, its authorizations and
      its key's encoding. */
  function RawEntry(reg: Registration): RawRegistration
  {
    RawRegistration(reg.certs, reg.auths, reg.key.der)
  }

  /** The entries `Snapshot`'s loop collects, one per registration, in store order. */
  function RawEntries(regs: seq<Registration>): seq<RawRegistration>
  {
    if regs == [] then [] else RawEntries(regs[..|regs| - 1]) + [RawEntry(regs[|regs| - 1])]
  }

  /** A registration as `Restore` would rebuild it: its key's encoding parses, a signer
      can be built for the key, its signer is that key's, and it carries a lock. */
  predicate WellFormed(reg: Registration, parses: seq<byte> -> bool, signerOk: PrivateKey -> bool)
  {
    parses(reg.key.der) && signerOk(reg.key) && reg.signer == Signer(reg.key) && reg.hasLock
  }

  /** The round trip the snapshot exists for: restoring the entries of a store of
      well-formed registrations gives back that store. */
  lemma {:induction false} SnapshotRestoreRoundTrip(regs: seq<Registration>, parses: seq<byte> -> bool,
                                                    signerOk: PrivateKey -> bool)
    requires forall i :: 0 <= i < |regs| ==> WellFormed(regs[i], parses, signerOk)
    ensures Restored(RawEntries(regs), parses, signerOk) == regs
    decreases |regs|
  {
    if regs != [] {
      var m := |regs| - 1;
      var init := regs[..m];
      SnapshotRestoreRoundTrip(init, parses, signerOk);
      var entries := RawEntries(regs);
      assert entries == RawEntries(init) + [RawEntry(regs[m])];
      assert entries[..|entries| - 1] == RawEntries(init);
      assert Rebuild(RawEntry(regs[m])) == regs[m];
      assert init + [regs[m]] == regs;
    }
  }

  /** As written, `Snapshot` marshals an empty record, so restoring its output brings back
      nothing from a store that is not empty. */
  lemma SnapshotAsWrittenLosesStore(regs: seq<Registration>, parses: seq<byte> -> bool,
                                    signerOk: PrivateKey -> bool)
    requires |regs| > 0
    ensures Restored(SnapshotRecord([]).registrations, parses, signerOk) == []
    ensures Restored(SnapshotRecord([]).registrations, parses, signerOk) != regs
  {
  }
}
