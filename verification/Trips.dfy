/**
 How a vehicle gets on the road: over all runs of the order services, exactly by startTrip, or by the
 unexpired code of its latest arrival, or by the master code while that is unexpired. How many wrong
 codes came before does not matter.
 */
module Trips {
  import opened Wrappers
  import opened Calendar
  import opened Fleet

  predicate OnTheRoad(s: State, i: nat) {
    i < |s.rows| && s.rows[i].status == InTransit
  }

  predicate HasArrived(s: State, i: nat) {
    i < |s.rows| && s.rows[i].status == Arrived
  }

  /** Row i's own driver calls startTrip. */
  predicate Starts(s: State, e: Event, i: nat) {
    e.StartTrip? && e.row == i && i < |s.rows| && s.rows[i].driver == Some(e.user)
  }

  /** A code is given for row i, which waits for it, as does or did every other vehicle of the order. */
  predicate Verifies(s: State, e: Event, i: nat) {
    e.VerifyOtp? && e.found == Some(i) && HasArrived(s, i) && AllStarted(s.rows, s.rows[i].order)
  }

  predicate CodePasses(row: Row, otp: string, now: Time) {
    (row.otpExpiresAt.Some? ==> now <= row.otpExpiresAt.value) && (row.otp == Some(otp) || otp == MASTER_OTP)
  }

  lemma StepGetsOnTheRoadIff(s: State, e: Event, i: nat)
    requires Honest(s, e) && !OnTheRoad(s, i)
    ensures OnTheRoad(Do(s, e).next, i) <==>
            Starts(s, e, i) || (Verifies(s, e, i) && CodePasses(s.rows[i], e.otp, e.now))
  {
    if LooksUp(e) && e.found.Some? {
      RowStepGetsOnTheRoadIff(s, e, e.found.value, i);
    }
  }

  lemma RowStepGetsOnTheRoadIff(s: State, e: Event, k: nat, i: nat)
    requires Honest(s, e) && LooksUp(e) && e.found == Some(k) && !OnTheRoad(s, i)
    ensures OnTheRoad(OnRow(s, k, e).next, i) <==> Verifies(s, e, i) && CodePasses(s.rows[i], e.otp, e.now)
  {
  }

  // ---------------------------------------------------------------------------
  // Which code a row holds
  // ---------------------------------------------------------------------------

  predicate Arrives(e: Event, i: nat) {
    e.Arrive? && e.found == Some(i)
  }

  predicate HasCode(s: State, i: nat, otp: Option<string>, until: Option<Time>) {
    i < |s.rows| && s.rows[i].otp == otp && s.rows[i].otpExpiresAt == until
  }

  /** Only an arrival writes a code, or makes a vehicle arrived. */
  predicate CodeStep(s: State, e: Event, i: nat, after: State) {
    if Arrives(e, i) then HasCode(after, i, Some(e.otp), Some(e.now + OTP_TTL))
    else
      && (i < |s.rows| ==> HasCode(after, i, s.rows[i].otp, s.rows[i].otpExpiresAt))
      && (HasArrived(after, i) ==> HasArrived(s, i))
  }

  lemma ChoiceKeepsCodes(s: State, e: Event, k: nat, i: nat)
    requires Honest(s, e) && OwnerChooses(e) && e.found == Some(k)
    ensures CodeStep(s, e, i, OnRow(s, k, e).next)
  {
  }

  lemma RowStepKeepsCodes(s: State, e: Event, k: nat, i: nat)
    requires Honest(s, e) && LooksUp(e) && e.found == Some(k)
    ensures CodeStep(s, e, i, OnRow(s, k, e).next)
  {
    if OwnerChooses(e) {
      ChoiceKeepsCodes(s, e, k, i);
    }
  }

  predicate CodeStepAt(ws: seq<State>, es: seq<Event>, k: nat, i: nat)
    requires k < |es| < |ws|
  {
    CodeStep(ws[k], es[k], i, ws[k + 1])
  }

  lemma NextCode(ws: seq<State>, es: seq<Event>, k: nat, i: nat)
    requires IsRun(ws, es) && k < |es|
    ensures CodeStepAt(ws, es, k, i)
  {
    if LooksUp(es[k]) && es[k].found.Some? {
      RowStepKeepsCodes(ws[k], es[k], es[k].found.value, i);
    }
  }

  /** Step m is the latest arrival of row i among the first n. */
  predicate LatestArrival(es: seq<Event>, m: nat, n: nat, i: nat)
    requires n <= |es|
  {
    m < n && Arrives(es[m], i) && forall k | m < k < n :: !Arrives(es[k], i)
  }

  ghost predicate EverArrived(es: seq<Event>, n: nat, i: nat)
    requires n <= |es|
  {
    exists m: nat :: LatestArrival(es, m, n, i)
  }

  lemma LatestOneMore(es: seq<Event>, n: nat, i: nat)
    requires 0 < n <= |es|
    ensures forall m: nat :: LatestArrival(es, m, n, i) <==>
              if Arrives(es[n - 1], i) then m == n - 1 else LatestArrival(es, m, n - 1, i)
    ensures EverArrived(es, n, i) <==> Arrives(es[n - 1], i) || EverArrived(es, n - 1, i)
  {
    if Arrives(es[n - 1], i) {
      assert LatestArrival(es, n - 1, n, i);
    } else if EverArrived(es, n - 1, i) {
      var m: nat :| LatestArrival(es, m, n - 1, i);
      assert LatestArrival(es, m, n, i);
    }
  }

  /** The row holds the code of its latest arrival, and has one if it waits for a code. */
  ghost predicate HoldsTheLatest(s: State, es: seq<Event>, n: nat, i: nat)
    requires n <= |es|
  {
    && (forall m: nat | LatestArrival(es, m, n, i) :: HasCode(s, i, Some(es[m].otp), Some(es[m].now + OTP_TTL)))
    && (HasArrived(s, i) ==> EverArrived(es, n, i))
  }

  lemma StillHoldsTheLatest(ws: seq<State>, es: seq<Event>, n: nat, i: nat)
    requires n < |es| < |ws| && HoldsTheLatest(ws[n], es, n, i) && CodeStepAt(ws, es, n, i)
    ensures HoldsTheLatest(ws[n + 1], es, n + 1, i)
  {
    LatestOneMore(es, n + 1, i);
  }

  lemma {:induction false} CodeOfTheLatest(ws: seq<State>, es: seq<Event>, n: nat, i: nat)
    requires n <= |es| < |ws| && ws[0].rows == [] && forall k | 0 <= k < n :: CodeStepAt(ws, es, k, i)
    ensures HoldsTheLatest(ws[n], es, n, i)
  {
    if n > 0 {
      CodeOfTheLatest(ws, es, n - 1, i);
      assert CodeStepAt(ws, es, n - 1, i);
      StillHoldsTheLatest(ws, es, n - 1, i);
    }
  }

  /** The code is the one of the row's latest arrival, or the master code, at most twelve hours after it. */
  ghost predicate HasTheCode(es: seq<Event>, n: nat, i: nat, otp: string, now: Time)
    requires n <= |es|
  {
    exists m: nat :: LatestArrival(es, m, n, i) && now <= es[m].now + 43_200_000 && (otp == es[m].otp || otp == "4729")
  }

  lemma CodePassesIff(ws: seq<State>, es: seq<Event>, n: nat, i: nat, otp: string, now: Time)
    requires IsRun(ws, es) && n <= |es| && HasArrived(ws[n], i)
    ensures CodePasses(ws[n].rows[i], otp, now) <==> HasTheCode(es, n, i, otp, now)
  {
    forall k | 0 <= k < n ensures CodeStepAt(ws, es, k, i) {
      NextCode(ws, es, k, i);
    }
    CodeOfTheLatest(ws, es, n, i);
    var m: nat :| LatestArrival(es, m, n, i);
    assert HasCode(ws[n], i, Some(es[m].otp), Some(es[m].now + OTP_TTL));
  }

  /**
   In every run a vehicle gets on the road at a step exactly when its driver calls startTrip, or when
   its whole fleet has arrived or left and the code given is the one of its latest arrival, or the master
   code, no more than twelve hours after that arrival.
   */
  lemma GetsOnTheRoadIff(ws: seq<State>, es: seq<Event>, n: nat, i: nat)
    requires IsRun(ws, es) && n < |es| && !OnTheRoad(ws[n], i)
    ensures OnTheRoad(ws[n + 1], i) <==>
            || Starts(ws[n], es[n], i)
            || (Verifies(ws[n], es[n], i) && HasTheCode(es, n, i, es[n].otp, es[n].now))
  {
    StepGetsOnTheRoadIff(ws[n], es[n], i);
    if Verifies(ws[n], es[n], i) {
      CodePassesIff(ws, es, n, i, es[n].otp, es[n].now);
    }
  }

  // ---------------------------------------------------------------------------
  // Attempts do not count
  // ---------------------------------------------------------------------------

  /** Row 0 of two arrived ones, with code 1234 and this many attempts left. */
  predicate Waiting(s: State, attempts: int) {
    && |s.rows| == 2 && s.rows[0].order == 0 && s.rows[0].vehicle == 10 && s.rows[0].attempts == attempts
    && HasArrived(s, 0) && HasArrived(s, 1) && HasCode(s, 0, Some("1234"), Some(OTP_TTL))
  }

  lemma WrongCode(ws: seq<State>, es: seq<Event>, attempts: int) returns (ws': seq<State>, es': seq<Event>)
    requires IsRun(ws, es) && Waiting(ws[|es|], attempts)
    ensures IsRun(ws', es') && |es'| == |es| + 1 && Waiting(ws'[|es'|], attempts - 1)
    ensures ws'[..|ws|] == ws && es'[..|es|] == es && es'[|es|] == VerifyOtp(0, 10, "0000", 1, Some(0))
    ensures Do(ws[|es|], es'[|es|]).failure == Some(if attempts <= 1 then TooManyAttempts else InvalidOtp(attempts - 1))
  {
    var verify := VerifyOtp(0, 10, "0000", 1, Some(0));
    RunGoesOn(ws, es, verify);
    ws', es' := ws + [Do(ws[|es|], verify).next], es + [verify];
  }

  /** After three wrong codes, the last one answered with TooManyAttempts, the right one still starts the trip. */
  lemma FourthCodeCanStart() returns (ws: seq<State>, es: seq<Event>)
    ensures IsRun(ws, es) && |es| == 7
    ensures forall k | 3 <= k < 6 :: es[k] == VerifyOtp(0, 10, "0000", 1, Some(0))
    ensures Do(ws[5], es[5]).failure == Some(TooManyAttempts)
    ensures es[6] == VerifyOtp(0, 10, "1234", 1, Some(0)) && !OnTheRoad(ws[6], 0) && OnTheRoad(ws[7], 0)
  {
    ws, es := RunOfTwoArrived();
    ws, es := WrongCode(ws, es, 3);
    ws, es := WrongCode(ws, es, 2);
    ws, es := WrongCode(ws, es, 1);
    var verify := VerifyOtp(0, 10, "1234", 1, Some(0));
    StepGetsOnTheRoadIff(ws[6], verify, 0);
    RunGoesOn(ws, es, verify);
    ws, es := ws + [Do(ws[6], verify).next], es + [verify];
  }
}
