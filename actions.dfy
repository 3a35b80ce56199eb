/** The eligibility rule of `sendCall`: the weighted action list it builds from the
    registration `getReg` returned. */
module Actions {
  import opened Wrappers
  import opened Weighted
  import opened Registrations

  /** The four protocol actions a dispatched call can run; their bodies are not part of
      this model. */
  datatype Action = NewRegistration | NewAuthorization | NewCertificate | RevokeCertificate

  /** The list `sendCall` builds: `newRegistration` at weight 2, then `newAuthorization` at
      4 when a registration was found, `newCertificate` at 4 when it has an authorization,
      and `revokeCertificate` at 3 when it has a certificate. */
  function ActionList(reg: Option<Registration>): (list: seq<Profile<Action>>)
    ensures |list| > 0 && list[0] == Profile(2, NewRegistration)
    ensures |list| == 1 + (if reg.Some? then 1 else 0)
                        + (if reg.Some? && |reg.value.auths| > 0 then 1 else 0)
                        + (if reg.Some? && |reg.value.certs| > 0 then 1 else 0)
    ensures forall j :: 0 <= j < |list| ==> list[j].prob == Weight(list[j].action)
  {
    [Profile(2, NewRegistration)]
    + (if reg.Some? then [Profile(4, NewAuthorization)] else [])
    + (if reg.Some? && |reg.value.auths| > 0 then [Profile(4, NewCertificate)] else [])
    + (if reg.Some? && |reg.value.certs| > 0 then [Profile(3, RevokeCertificate)] else [])
  }

  /** When an action may run against the registration found (or none). */
  predicate Eligible(a: Action, reg: Option<Registration>)
  {
    match a
    case NewRegistration => true
    case NewAuthorization => reg.Some?
    case NewCertificate => reg.Some? && |reg.value.auths| > 0
    case RevokeCertificate => reg.Some? && |reg.value.certs| > 0
  }

  /** The weight each action is listed with. */
  function Weight(a: Action): int
  {
    match a
    case NewRegistration => 2
    case NewAuthorization => 4
    case NewCertificate => 4
    case RevokeCertificate => 3
  }

  /** An action is in the list exactly when it is eligible; it appears once, with its
      weight, and the list follows the order registration, authorization, certificate,
      revocation. */
  lemma ActionListEligible(reg: Option<Registration>, a: Action)
    ensures (exists j :: 0 <= j < |ActionList(reg)| && ActionList(reg)[j].action == a) <==> Eligible(a, reg)
    ensures forall j :: 0 <= j < |ActionList(reg)| && ActionList(reg)[j].action == a ==>
      ActionList(reg)[j].prob == Weight(a)
    ensures forall i, j :: 0 <= i < j < |ActionList(reg)| ==> ActionList(reg)[i].action != ActionList(reg)[j].action
    ensures forall i, j :: 0 <= i < j < |ActionList(reg)| ==> Rank(ActionList(reg)[i].action) < Rank(ActionList(reg)[j].action)
  {
    var list := ActionList(reg);
    if Eligible(a, reg) {
      var j := match a
        case NewRegistration => 0
        case NewAuthorization => 1
        case NewCertificate => 2
        case RevokeCertificate => |list| - 1;
      assert list[j].action == a;
    }
  }

  /** The action that owns a draw on the list is an eligible one. */
  lemma OwnerEligible(reg: Option<Registration>, r: int, a: Action)
    requires LastOwner(ActionList(reg), r, a)
    ensures Eligible(a, reg)
  {
    ActionListEligible(reg, a);
  }

  /** The position of an action in the order `sendCall` appends them. */
  function Rank(a: Action): int
  {
    match a
    case NewRegistration => 0
    case NewAuthorization => 1
    case NewCertificate => 2
    case RevokeCertificate => 3
  }

  /** The list is never empty, starts with `newRegistration` at weight 2, has no negative
      weight, and its total weight is the sum of the eligible actions' weights: one of 2, 6,
      9, 10 or 13. */
  lemma ActionListWeights(reg: Option<Registration>)
    ensures |ActionList(reg)| > 0 && ActionList(reg)[0] == Profile(2, NewRegistration)
    ensures forall j :: 0 <= j < |ActionList(reg)| ==> ActionList(reg)[j].prob > 0
    ensures Total(ActionList(reg)) ==
      2 + (if reg.Some? then 4 else 0)
        + (if reg.Some? && |reg.value.auths| > 0 then 4 else 0)
        + (if reg.Some? && |reg.value.certs| > 0 then 3 else 0)
    ensures Total(ActionList(reg)) in {2, 6, 9, 10, 13}
  {
    var list := ActionList(reg);
    var auths := reg.Some? && |reg.value.auths| > 0;
    var certs := reg.Some? && |reg.value.certs| > 0;
    assert Offset(list, 1) == 2;
    if reg.Some? {
      assert Offset(list, 2) == 6;
      if auths {
        assert Offset(list, 3) == 10;
        if certs {
          assert Offset(list, 4) == 13;
        }
      } else if certs {
        assert Offset(list, 3) == 9;
      }
    }
  }

  /** With every action eligible the draw ranges are `[0, 2)` for `newRegistration`,
      `[2, 6)` for `newAuthorization`, `[6, 10)` for `newCertificate` and `[10, 13)` for
      `revokeCertificate`. */
  lemma FullListRanges(reg: Registration, r: int)
    requires |reg.auths| > 0 && |reg.certs| > 0
    requires 0 <= r < 13
    ensures var list := ActionList(Some(reg));
      |list| == 4 &&
      (Covers(list, 0, r) <==> 0 <= r < 2) &&
      (Covers(list, 1, r) <==> 2 <= r < 6) &&
      (Covers(list, 2, r) <==> 6 <= r < 10) &&
      (Covers(list, 3, r) <==> 10 <= r < 13)
  {
    var list := ActionList(Some(reg));
    assert list == [Profile(2, NewRegistration), Profile(4, NewAuthorization),
                    Profile(4, NewCertificate), Profile(3, RevokeCertificate)];
    assert Offset(list, 1) == 2 && Offset(list, 2) == 6 && Offset(list, 3) == 10;
  }

  /** `sendCall` read-locks the registration it found before looking at its history; with
      a nil lock that call panics. */
  predicate ReadLockPanics(reg: Option<Registration>)
  {
    reg.Some? && !reg.value.hasLock
  }

  /** A registration restored as written makes the next `sendCall` that draws it panic;
      one restored as intended does not. */
  lemma RestoredRegistrationUsable(e: RawRegistration, parses: seq<byte> -> bool, signerOk: PrivateKey -> bool)
    requires Restorable(e, parses, signerOk)
    ensures |RestoredAsWritten([e], parses, signerOk)| == 1
    ensures ReadLockPanics(Some(RestoredAsWritten([e], parses, signerOk)[0]))
    ensures Restored([e], parses, signerOk) == [Rebuild(e)]
    ensures !ReadLockPanics(Some(Restored([e], parses, signerOk)[0]))
  {
    RestoredSingle(e, parses, signerOk);
  }
}
