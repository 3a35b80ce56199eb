/** The load generator's shared `State`, run one call at a time: the nonce pool and the
    registration store it updates in place, and the dispatch of one call. Locks, goroutines,
    the HTTP client, the clock and `math/rand` are left out; every network outcome and
    random draw is a parameter. */
module LoadState {
  import opened Wrappers
  import opened Weighted
  import opened Registrations
  import opened Nonces
  import opened Actions

  /** What one dispatched call comes to: the run-time panic of `RLock` on a registration
      whose lock is nil, or the action that is then run on the registration. */
  datatype CallOutcome = NilLockPanic | Dispatched(action: Action)

  /** The JWS `signWithNonce` serialises: the payload, signed by `signer`, with `nonce` in
      its protected header. */
  datatype SignedRequest = SignedRequest(signer: Signer, nonce: string, payload: seq<byte>)

  /** One second in nanoseconds. */
  const Second := 1000000000

  /** The pause between two dispatches, `time.Second.Nanoseconds() / throughput` with Go's
      division, which truncates toward zero; a zero rate is a division by zero. */
  function SleepInterval(throughput: int): (d: Option<int>)
    ensures d.None? <==> throughput == 0
    ensures throughput > 0 ==> d.value >= 0 && d.value * throughput <= Second < (d.value + 1) * throughput
    ensures throughput < 0 ==> d.value <= 0 && d.value * throughput <= Second < (1 - d.value) * -throughput
  {
    if throughput == 0 then None
    else if throughput > 0 then Some(Second / throughput)
    else Some(-(Second / -throughput))
  }

  class State {
    /** The registration store; it only grows. */
    var regs: seq<Registration>
    /** The pooled `Replay-Nonce` tokens, oldest first. */
    var noncePool: seq<string>
    /** The target rate in calls per second. */
    var throughput: int

    /** The bookkeeping part of `New`: both collections empty, the rate as given. */
    constructor (rate: int)
      ensures regs == [] && noncePool == [] && throughput == rate
    {
      regs := [];
      noncePool := [];
      throughput := rate;
    }

    /** The pause `Run` takes between two dispatches at the stored rate (line 169 reads
        the field). */
    function Interval(): (d: Option<int>)
      reads this
      ensures d.None? <==> throughput == 0
      ensures throughput > 0 ==> d.value >= 0 && d.value * throughput <= Second < (d.value + 1) * throughput
    {
      SleepInterval(throughput)
    }

    // ------------------------------------------------------------ nonces

    /** `addNonce`: append one token at the end of the pool. */
    method AddNonce(nonce: string)
      modifies this`noncePool
      ensures noncePool == old(noncePool) + [nonce]
    {
      noncePool := noncePool + [nonce];
    }

    /** `getNonce`, with the outcome of the HEAD request it would send supplied as `probe`
        (consulted only when the pool is empty or a fresh token is demanded). */
    method GetNonce(alwaysNew: bool, probe: Probe) returns (nonce: Result<string, Error>)
      modifies this`noncePool
      ensures Acquire(old(noncePool), alwaysNew, probe) == Acquired(nonce, noncePool)
      ensures FromPool(old(noncePool), alwaysNew) ==>
        nonce == Success(old(noncePool)[0]) && noncePool == old(noncePool)[1..]
      ensures !FromPool(old(noncePool), alwaysNew) ==>
        nonce == ProbeNonce(probe) && noncePool == old(noncePool)
    {
      if |noncePool| == 0 || alwaysNew {
        match probe
        case ProbeFailed(err) =>
          return Failure(TransportError(err));
        case ProbeAnswered(header) =>
          if header != "" {
            return Success(header);
          }
          return Failure(ProtocolError(NonceHeaderMissing));
      }
      nonce := Success(noncePool[0]);
      noncePool := noncePool[1..];
    }

    /** `post`, with what `client.Post` returned supplied as `ex`: a token on the response
        goes back into the pool before, and whatever, the transport error is reported. */
    method Post(ex: Exchange) returns (r: Result<Option<Response>, Error>)
      modifies this`noncePool
      ensures noncePool == old(noncePool) + Harvested(ex)
      ensures r == PostResult(ex)
    {
      if ex.resp.Some? {
        var newNonce := ex.resp.value.replayNonce;
        if newNonce != "" {
          AddNonce(newNonce);
        }
      }
      if ex.err.Some? {
        return Failure(TransportError(ex.err.value));
      }
      return Success(ex.resp);
    }

    /** `signWithNonce`: take a nonce as `getNonce` does and sign the payload with it;
        `signError` is the outcome of `signer.Sign`. The nonce is used up even when the
        signing fails. */
    method SignWithNonce(alwaysNew: bool, probe: Probe, payload: seq<byte>, signer: Signer, signError: Option<string>)
      returns (r: Result<SignedRequest, Error>)
      modifies this`noncePool
      ensures noncePool == Acquire(old(noncePool), alwaysNew, probe).pool
      ensures var got := Acquire(old(noncePool), alwaysNew, probe).result;
        (got.Failure? ==> r == Failure(got.error)) &&
        (got.Success? && signError.Some? ==> r == Failure(SigningError(signError.value))) &&
        (got.Success? && signError.None? ==> r == Success(SignedRequest(signer, got.value, payload)))
    {
      var nonce := GetNonce(alwaysNew, probe);
      if nonce.Failure? {
        return Failure(nonce.error);
      }
      if signError.Some? {
        return Failure(SigningError(signError.value));
      }
      return Success(SignedRequest(signer, nonce.value, payload));
    }

    // ------------------------------------------------------------ registrations

    /** `addReg`: append one registration; the earlier ones stay as they are. */
    method AddReg(reg: Registration)
      modifies this`regs
      ensures regs == old(regs) + [reg]
    {
      regs := regs + [reg];
    }

    /** `getReg`: `getRandReg` over the store, with the draw supplied. */
    method GetReg(draw: int) returns (reg: Option<Registration>)
      requires |regs| > 0 ==> 0 <= draw < |regs|
      ensures reg.None? <==> |regs| == 0
      ensures reg == GetRandReg(regs, draw)
    {
      if |regs| == 0 {
        return None;
      }
      return Some(regs[draw]);
    }

    /** `Restore`, with the outcome of `json.Unmarshal` supplied as `decoded`: a decode
        error is returned and the store is left alone; otherwise every restorable entry is
        appended, in entry order, each with a lock of its own, the others are skipped, and
        no error is reported. */
    method Restore(decoded: Result<SnapshotRecord, string>, parses: seq<byte> -> bool, signerOk: PrivateKey -> bool)
      returns (err: Option<string>)
      modifies this`regs
      ensures decoded.Failure? ==> err == Some(decoded.error) && regs == old(regs)
      ensures decoded.Success? ==>
        err == None && regs == old(regs) + Restored(decoded.value.registrations, parses, signerOk)
    {
      if decoded.Failure? {
        return Some(decoded.error);
      }
      var entries := decoded.value.registrations;
      for i := 0 to |entries|
        invariant regs == old(regs) + Restored(entries[..i], parses, signerOk)
      {
        var r := entries[i];
        assert entries[..i + 1][..i] == entries[..i];
        if parses(r.rawKey) {
          var key := PrivateKey(r.rawKey);
          if signerOk(key) {
            regs := regs + [Registration(key, Signer(key), true, r.auths, r.certs)];
          }
        }
      }
      assert entries[..|entries|] == entries;
      return None;
    }

    /** `Snapshot` as intended: the record holds one entry per registration, in store
        order. */
    method Snapshot() returns (snap: SnapshotRecord)
      ensures snap == SnapshotRecord(RawEntries(regs))
    {
      var rawRegs: seq<RawRegistration> := [];
      for i := 0 to |regs|
        invariant rawRegs == RawEntries(regs[..i])
      {
        assert regs[..i + 1][..i] == regs[..i];
        rawRegs := rawRegs + [RawRegistration(regs[i].certs, regs[i].auths, regs[i].key.der)];
      }
      assert regs[..|regs|] == regs;
      snap := SnapshotRecord(rawRegs);
    }

    /** `Snapshot` as written: it collects the entries and then marshals the empty record
        it started with. */
    method SnapshotAsWritten() returns (snap: SnapshotRecord, rawRegs: seq<RawRegistration>)
      ensures rawRegs == RawEntries(regs)
      ensures snap.registrations == []
    {
      snap := SnapshotRecord([]);
      rawRegs := [];
      for i := 0 to |regs|
        invariant rawRegs == RawEntries(regs[..i])
      {
        assert regs[..i + 1][..i] == regs[..i];
        rawRegs := rawRegs + [RawRegistration(regs[i].certs, regs[i].auths, regs[i].key.der)];
      }
      assert regs[..|regs|] == regs;
    }

    // ------------------------------------------------------------ dispatch

    /** `sendCall` up to running the action: pick a registration with the draw `regDraw`,
        build the action list it is eligible for, and pick an action with the draw
        `actionDraw` over the list's total weight. */
    method SendCall(regDraw: int, actionDraw: int) returns (reg: Option<Registration>, outcome: CallOutcome)
      requires |regs| > 0 ==> 0 <= regDraw < |regs|
      requires 0 <= actionDraw < Total(ActionList(GetRandReg(regs, regDraw)))
      ensures reg == GetRandReg(regs, regDraw)
      ensures outcome.NilLockPanic? <==> ReadLockPanics(reg)
      ensures outcome.Dispatched? ==> Eligible(outcome.action, reg)
      ensures outcome.Dispatched? ==> LastOwner(ActionList(reg), actionDraw, outcome.action)
      ensures outcome.Dispatched? ==> OwnedBy(ActionList(reg), actionDraw, outcome.action)
    {
      var actionList := [Profile(2, NewRegistration)];
      reg := GetReg(regDraw);
      if reg.Some? {
        actionList := actionList + [Profile(4, NewAuthorization)];
        if !reg.value.hasLock {
          return reg, NilLockPanic;
        }
        if |reg.value.auths| > 0 {
          actionList := actionList + [Profile(4, NewCertificate)];
        }
        if |reg.value.certs| > 0 {
          actionList := actionList + [Profile(3, RevokeCertificate)];
        }
      }
      assert actionList == ActionList(reg);
      ActionListWeights(reg);
      var pick := WeightedCall(actionList, actionDraw);
      OwnerEligible(reg, actionDraw, pick.action);
      outcome := Dispatched(pick.action);
    }
  }
}
