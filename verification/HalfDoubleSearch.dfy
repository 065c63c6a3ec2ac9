/** What the half-double search has found out about a row when it gets to a call: the dilutions and
    totals tried before, and the baselines. */
module HalfDoubleSearch {
  import opened HalfDouble
  import Lcm

  // ---------------------------------------------------------------- what was tried before

  /** Call `m` was for the same row and total as call `n`, with dilution `d`, and flipped. */
  ghost predicate Flipped(p: Params, outcome: nat -> Victim, n: nat, m: nat, d: int)
    requires p.Sensible()
  {
    var f, g := After(p, outcome, m), After(p, outcome, n);
    m < n && f.iteration == g.iteration && f.total == g.total && f.dilution == d && outcome(m).Seen?
  }

  ghost predicate WasFlipped(p: Params, outcome: nat -> Victim, n: nat, d: int)
    requires p.Sensible()
  {
    exists m :: Flipped(p, outcome, n, m, d)
  }

  /** The dilution is raised only while the victim flips: at any call, every smaller dilution
      initial * multiplier^i was tried before with the same row and total, and flipped. */
  lemma {:induction false} SmallerDilutionsFlipped(p: Params, outcome: nat -> Victim, n: nat, i: nat)
    requires p.Sensible() && p.initialDilution * Power(p.multiplier, i) < After(p, outcome, n).dilution
    ensures WasFlipped(p, outcome, n, p.initialDilution * Power(p.multiplier, i))
    decreases n
  {
    hide After, Next, Inv, WasFlipped, Power;
    AfterStep(p, outcome, n);
    PowerAtLeast(p, i);
    if n > 0 {
      var f, g, d := After(p, outcome, n - 1), After(p, outcome, n), p.initialDilution * Power(p.multiplier, i);
      NextDilution(p, f, outcome(n - 1).Seen?);
      if g.dilution != p.initialDilution {
        FlippedStays(p, outcome, n - 1, d);
        if d < f.dilution {
          SmallerDilutionsFlipped(p, outcome, n - 1, i);
        } else if d == f.dilution {
          FlippedNow(p, outcome, n);
        } else {
          GridStep(p, f.dilution, i);
        }
      }
    }
  }

  /** A dilution other than the initial one was kept or multiplied after a flip, for the same row and total. */
  lemma NextDilution(p: Params, f: Fields, flipped: bool)
    requires p.Sensible() && Inv(p, f)
    ensures var g := Next(p, f, flipped);
            g.dilution != p.initialDilution ==>
              && g.iteration == f.iteration && g.total == f.total && Diluted(p, f.dilution)
              && (g.dilution == f.dilution || (flipped && g.dilution == f.dilution * p.multiplier))
  {
    PositiveProduct(f.dilution, p.multiplier);
  }

  lemma FlippedStays(p: Params, outcome: nat -> Victim, n: nat, d: int)
    requires p.Sensible() && After(p, outcome, n + 1).iteration == After(p, outcome, n).iteration
    requires After(p, outcome, n + 1).total == After(p, outcome, n).total
    ensures WasFlipped(p, outcome, n, d) ==> WasFlipped(p, outcome, n + 1, d)
  {
    hide After;
    if WasFlipped(p, outcome, n, d) {
      var m :| Flipped(p, outcome, n, m, d);
      assert Flipped(p, outcome, n + 1, m, d);
    }
  }

  lemma FlippedNow(p: Params, outcome: nat -> Victim, n: nat)
    requires p.Sensible() && n > 0 && outcome(n - 1).Seen?
    requires After(p, outcome, n).iteration == After(p, outcome, n - 1).iteration
    requires After(p, outcome, n).total == After(p, outcome, n - 1).total
    ensures WasFlipped(p, outcome, n, After(p, outcome, n - 1).dilution)
  {
    hide After;
    assert Flipped(p, outcome, n, n - 1, After(p, outcome, n - 1).dilution);
  }

  lemma {:induction false} PowerAtLeast(p: Params, i: nat)
    requires p.Sensible()
    ensures Power(p.multiplier, i) >= 1 && p.initialDilution * Power(p.multiplier, i) >= p.initialDilution
    decreases i
  {
    if i > 0 {
      PowerAtLeast(p, i - 1);
      Lcm.Product(Power(p.multiplier, i - 1), p.multiplier);
    }
    Lcm.Product(Power(p.multiplier, i), p.initialDilution);
  }

  /** No dilution of the grid lies strictly between two neighbours. */
  lemma GridStep(p: Params, f: int, i: nat)
    requires p.Sensible() && Diluted(p, f)
    ensures !(f < p.initialDilution * Power(p.multiplier, i) < f * p.multiplier)
  {
    hide Power;
    var k: nat :| f == p.initialDilution * Power(p.multiplier, k);
    if i <= k {
      GridGrows(p, i, k);
    } else {
      GridGrows(p, k + 1, i);
      GridNext(p, k);
    }
  }

  lemma GridNext(p: Params, k: nat)
    ensures p.initialDilution * Power(p.multiplier, k + 1) == p.initialDilution * Power(p.multiplier, k) * p.multiplier
  {
    var a, b, c := p.initialDilution, Power(p.multiplier, k), p.multiplier;
    assert Power(p.multiplier, k + 1) == b * c;
    assert a * (b * c) == a * b * c;
  }

  lemma {:induction false} GridGrows(p: Params, i: nat, k: nat)
    requires p.Sensible() && i <= k
    ensures p.initialDilution * Power(p.multiplier, i) <= p.initialDilution * Power(p.multiplier, k)
    decreases k
  {
    hide Power;
    if i < k {
      GridGrows(p, i, k - 1);
      GridNext(p, k - 1);
      PowerAtLeast(p, k - 1);
      PositiveProduct(p.initialDilution * Power(p.multiplier, k - 1), p.multiplier);
    }
  }

  /** Call `m` ended the dilution search of the same row at the total one step higher: it did not flip, or
      there was no room for a larger dilution. */
  ghost predicate Ended(p: Params, outcome: nat -> Victim, n: nat, m: nat)
    requires p.Sensible()
  {
    var f, g := After(p, outcome, m), After(p, outcome, n);
    && m < n && f.iteration == g.iteration && f.total == g.total + p.Step() && f.phase == MAX_DILUTION
    && (outcome(m).Unseen? || f.dilution * p.multiplier > p.maxDilution)
  }

  ghost predicate HasEnded(p: Params, outcome: nat -> Victim, n: nat)
    requires p.Sensible()
  {
    exists m :: Ended(p, outcome, n, m)
  }

  /** A total below the maximum is used only after the dilution search at the total one step higher ended. */
  lemma {:induction false} LowerTotalAfterSearch(p: Params, outcome: nat -> Victim, n: nat)
    requires p.Sensible()
    ensures After(p, outcome, n).total < p.maxTotal ==> HasEnded(p, outcome, n)
    decreases n
  {
    hide After, Next, Inv, HasEnded;
    AfterStep(p, outcome, n);
    if n > 0 {
      LowerTotalAfterSearch(p, outcome, n - 1);
      NextTotal(p, After(p, outcome, n - 1), outcome(n - 1).Seen?);
      EndedStays(p, outcome, n);
    }
  }

  lemma NextTotal(p: Params, f: Fields, flipped: bool)
    requires p.Sensible() && Inv(p, f)
    ensures var g := Next(p, f, flipped);
            g.total < p.maxTotal ==>
              && g.iteration == f.iteration
              && (g.total == f.total
                  || (g.total == f.total - p.Step() && f.phase == MAX_DILUTION
                      && (!flipped || f.dilution * p.multiplier > p.maxDilution)))
  {
    PositiveProduct(f.dilution, p.multiplier);
  }

  lemma EndedStays(p: Params, outcome: nat -> Victim, n: nat)
    requires p.Sensible() && n > 0
    ensures var f, g := After(p, outcome, n - 1), After(p, outcome, n);
            && (g.iteration == f.iteration && g.total == f.total && HasEnded(p, outcome, n - 1)
                ==> HasEnded(p, outcome, n))
            && ((g.iteration == f.iteration && g.total == f.total - p.Step() && f.phase == MAX_DILUTION
                 && (outcome(n - 1).Unseen? || f.dilution * p.multiplier > p.maxDilution)) ==> HasEnded(p, outcome, n))
  {
    hide After;
    var f, g := After(p, outcome, n - 1), After(p, outcome, n);
    if g.iteration == f.iteration && g.total == f.total && HasEnded(p, outcome, n - 1) {
      var m :| Ended(p, outcome, n - 1, m);
      assert Ended(p, outcome, n, m);
    }
    if g.iteration == f.iteration && g.total == f.total - p.Step() && f.phase == MAX_DILUTION
       && (outcome(n - 1).Unseen? || f.dilution * p.multiplier > p.maxDilution) {
      assert Ended(p, outcome, n, n - 1);
    }
  }

  /** Exactly when a row is left, and when the search at a total goes on to a larger dilution. */
  lemma RowLeftIff(p: Params, outcome: nat -> Victim, n: nat)
    requires p.Sensible()
    ensures var f, g, flipped := After(p, outcome, n), After(p, outcome, n + 1), outcome(n).Seen?;
            && (g.iteration == f.iteration || g.iteration == f.iteration + 1)
            && (g.iteration != f.iteration
                <==> match f.phase
                     case NOFLIP_DISTANCE_ONE => flipped && f.dilution * p.multiplier > p.maxDilution
                     case NOFLIP_DISTANCE_TWO => flipped
                     case HAMMER_TOLERANCE => !flipped || f.total <= p.Step()
                     case MAX_DILUTION => false)
            && (f.phase == MAX_DILUTION ==>
                  (g.phase == MAX_DILUTION <==> flipped && f.dilution * p.multiplier <= p.maxDilution))
  {
    hide After, Inv;
    AfterStep(p, outcome, n + 1);
    PositiveProduct(After(p, outcome, n).dilution, p.multiplier);
    AboveStep(p, After(p, outcome, n));
  }

  lemma AboveStep(p: Params, f: Fields)
    requires Inv(p, f)
    ensures f.phase == MAX_DILUTION ==> f.total > p.Step()
  {
  }

  // ---------------------------------------------------------------- what the baselines were

  /** Call `i`, for the same row as call `n`, hammered at exactly these distances and found no flip. */
  ghost predicate Clean(p: Params, outcome: nat -> Victim, n: nat, i: nat, one: bool, two: bool)
    requires p.Sensible()
  {
    var f := After(p, outcome, i);
    i < n && f.iteration == After(p, outcome, n).iteration && f.distanceOne == one && f.distanceTwo == two
    && outcome(i).Unseen?
  }

  ghost predicate WasClean(p: Params, outcome: nat -> Victim, n: nat, one: bool, two: bool)
    requires p.Sensible()
  {
    exists i :: Clean(p, outcome, n, i, one, two)
  }

  /** The last of the first `n` calls that was made in the second phase, or -1. */
  ghost function LastTwo(p: Params, outcome: nat -> Victim, n: nat): (m: int)
    requires p.Sensible()
    ensures -1 <= m < n
  {
    if n == 0 then -1
    else if After(p, outcome, n - 1).phase == NOFLIP_DISTANCE_TWO then n - 1
    else LastTwo(p, outcome, n - 1)
  }

  /** The last call in the second phase for a row before that of call `n`, or -1. */
  ghost function PreviousTwo(p: Params, outcome: nat -> Victim, n: nat): (m: int)
    requires p.Sensible()
    ensures -1 <= m < n
  {
    if n == 0 then -1
    else if After(p, outcome, n).iteration != After(p, outcome, n - 1).iteration then LastTwo(p, outcome, n)
    else PreviousTwo(p, outcome, n - 1)
  }

  predicate NoFlip(outcome: nat -> Victim, m: int) {
    m < 0 || outcome(m).Unseen?
  }

  /** `distance_one` is on exactly outside the second phase and unless the last call in the second phase
      flipped: `next_row` does not turn it on again. */
  lemma {:induction false} DistanceOneIff(p: Params, outcome: nat -> Victim, n: nat)
    requires p.Sensible()
    ensures var f := After(p, outcome, n);
            f.distanceOne <==> f.phase != NOFLIP_DISTANCE_TWO && NoFlip(outcome, LastTwo(p, outcome, n))
    decreases n
  {
    hide After, Next, Inv;
    AfterStep(p, outcome, n);
    if n > 0 {
      DistanceOneIff(p, outcome, n - 1);
      NextDistances(p, After(p, outcome, n - 1), outcome(n - 1).Seen?);
    }
  }

  lemma NextDistances(p: Params, f: Fields, flipped: bool)
    requires p.Sensible() && Inv(p, f)
    ensures var g := Next(p, f, flipped);
            if f.phase == NOFLIP_DISTANCE_TWO then
              g.phase != NOFLIP_DISTANCE_TWO && g.distanceOne == (f.distanceOne || !flipped)
            else g.distanceOne == (f.distanceOne && g.phase != NOFLIP_DISTANCE_TWO)
  {
    PositiveProduct(f.dilution, p.multiplier);
  }

  /** In the first phase the last call in the second phase was for an earlier row. */
  lemma {:induction false} FirstPhaseLooksBack(p: Params, outcome: nat -> Victim, n: nat)
    requires p.Sensible()
    ensures After(p, outcome, n).phase == NOFLIP_DISTANCE_ONE ==> LastTwo(p, outcome, n) == PreviousTwo(p, outcome, n)
    decreases n
  {
    hide After, Next, Inv;
    if n > 0 {
      FirstPhaseLooksBack(p, outcome, n - 1);
      AfterStep(p, outcome, n);
      NextPhase(p, After(p, outcome, n - 1), outcome(n - 1).Seen?);
    }
  }

  lemma {:induction false} SameRow(p: Params, outcome: nat -> Victim, i: nat, n: nat)
    requires p.Sensible() && i <= n
    ensures After(p, outcome, i).iteration <= After(p, outcome, n).iteration
    ensures After(p, outcome, i).iteration == After(p, outcome, n).iteration ==>
              PreviousTwo(p, outcome, i) == PreviousTwo(p, outcome, n)
    decreases n - i
  {
    hide After, Next, Inv;
    if i < n {
      SameRow(p, outcome, i, n - 1);
      AfterStep(p, outcome, n);
      NextPhase(p, After(p, outcome, n - 1), outcome(n - 1).Seen?);
    }
  }

  /** The baselines of a row. Before a row is hammered at both distances it showed no flip at distance
      two alone. Before it was hammered at distance two it was found clean at distance one alone if and only
      if the last row before it that reached the second phase did not flip there; otherwise `distance_one`
      was still off and its first phase hammered neither distance. */
  lemma BaselinesIff(p: Params, outcome: nat -> Victim, n: nat)
    requires p.Sensible()
    ensures var phase := After(p, outcome, n).phase;
            && (phase != NOFLIP_DISTANCE_ONE ==>
                  (WasClean(p, outcome, n, true, false) <==> NoFlip(outcome, PreviousTwo(p, outcome, n))))
            && (phase == HAMMER_TOLERANCE || phase == MAX_DILUTION ==> WasClean(p, outcome, n, false, true))
  {
    hide After, Next, Inv, WasClean, Clean;
    FirstPhases(p, outcome, n);
    SecondPhases(p, outcome, n);
    if After(p, outcome, n).phase != NOFLIP_DISTANCE_ONE {
      CleanAlone(p, outcome, n);
    }
  }

  /** The clean call in the first phase of a row, with the distances it was made at. */
  lemma {:induction false} FirstPhases(p: Params, outcome: nat -> Victim, n: nat)
    requires p.Sensible()
    ensures After(p, outcome, n).phase != NOFLIP_DISTANCE_ONE ==>
              WasClean(p, outcome, n, NoFlip(outcome, PreviousTwo(p, outcome, n)), false)
    decreases n
  {
    hide After, Next, Inv, WasClean, Clean;
    AfterStep(p, outcome, n);
    if n > 0 {
      var f := After(p, outcome, n - 1);
      FirstPhases(p, outcome, n - 1);
      NextPhase(p, f, outcome(n - 1).Seen?);
      if After(p, outcome, n).iteration == f.iteration {
        CleanStays(p, outcome, n - 1, NoFlip(outcome, PreviousTwo(p, outcome, n - 1)), false);
        CleanNow(p, outcome, n);
        DistanceOneIff(p, outcome, n - 1);
        FirstPhaseLooksBack(p, outcome, n - 1);
        DistanceTwo(p, f);
      }
    }
  }

  lemma {:induction false} SecondPhases(p: Params, outcome: nat -> Victim, n: nat)
    requires p.Sensible()
    ensures var phase := After(p, outcome, n).phase;
            phase == HAMMER_TOLERANCE || phase == MAX_DILUTION ==> WasClean(p, outcome, n, false, true)
    decreases n
  {
    hide After, Next, Inv, WasClean, Clean;
    AfterStep(p, outcome, n);
    if n > 0 {
      var f := After(p, outcome, n - 1);
      SecondPhases(p, outcome, n - 1);
      NextPhase(p, f, outcome(n - 1).Seen?);
      if After(p, outcome, n).iteration == f.iteration {
        CleanStays(p, outcome, n - 1, false, true);
        CleanNow(p, outcome, n);
        DistanceOneIff(p, outcome, n - 1);
        DistanceTwo(p, f);
      }
    }
  }

  /** Only the first phase hammers at distance one alone, and then the row before left it on. */
  lemma CleanAlone(p: Params, outcome: nat -> Victim, n: nat)
    requires p.Sensible() && WasClean(p, outcome, n, NoFlip(outcome, PreviousTwo(p, outcome, n)), false)
    ensures WasClean(p, outcome, n, true, false) <==> NoFlip(outcome, PreviousTwo(p, outcome, n))
  {
    hide After, Next, Inv;
    if WasClean(p, outcome, n, true, false) {
      var i :| Clean(p, outcome, n, i, true, false);
      DistanceTwo(p, After(p, outcome, i));
      DistanceOneIff(p, outcome, i);
      FirstPhaseLooksBack(p, outcome, i);
      SameRow(p, outcome, i, n);
    }
  }

  lemma DistanceTwo(p: Params, f: Fields)
    requires Inv(p, f)
    ensures f.distanceTwo <==> f.phase != NOFLIP_DISTANCE_ONE
  {
  }

  lemma CleanNow(p: Params, outcome: nat -> Victim, n: nat)
    requires p.Sensible() && n > 0 && After(p, outcome, n - 1).iteration == After(p, outcome, n).iteration
    ensures var f := After(p, outcome, n - 1);
            outcome(n - 1).Unseen? ==> WasClean(p, outcome, n, f.distanceOne, f.distanceTwo)
  {
    hide After;
    var f := After(p, outcome, n - 1);
    if outcome(n - 1).Unseen? { assert Clean(p, outcome, n, n - 1, f.distanceOne, f.distanceTwo); }
  }

  lemma CleanStays(p: Params, outcome: nat -> Victim, n: nat, one: bool, two: bool)
    requires p.Sensible() && After(p, outcome, n + 1).iteration == After(p, outcome, n).iteration
    ensures WasClean(p, outcome, n, one, two) ==> WasClean(p, outcome, n + 1, one, two)
  {
    hide After;
    if WasClean(p, outcome, n, one, two) {
      var i :| Clean(p, outcome, n, i, one, two);
      assert Clean(p, outcome, n + 1, i, one, two);
    }
  }

  /** A row that is hammered at both distances without ever having been hammered at distance one alone:
      the row before it flipped in its second phase. */
  lemma SkippedBaseline()
    ensures var p := Params(100, 10, 2, 2, 16, 10, 0);
            var outcome := (k: nat) => if k == 1 then Seen(1) else Unseen;
            && p.Sensible()
            && After(p, outcome, 2).phase == NOFLIP_DISTANCE_ONE
            && !After(p, outcome, 2).distanceOne && !After(p, outcome, 2).distanceTwo
            && After(p, outcome, 4).phase == HAMMER_TOLERANCE
            && After(p, outcome, 4).distanceOne && After(p, outcome, 4).distanceTwo
            && !WasClean(p, outcome, 4, true, false)
  {
    hide WasClean;
    var p := Params(100, 10, 2, 2, 16, 10, 0);
    var outcome := (k: nat) => if k == 1 then Seen(1) else Unseen;
    assert After(p, outcome, 0) == Initial(p);
    assert After(p, outcome, 1).phase == NOFLIP_DISTANCE_TWO;
    assert After(p, outcome, 2).iteration == 1;
    assert After(p, outcome, 3).phase == NOFLIP_DISTANCE_TWO;
    assert PreviousTwo(p, outcome, 2) == 1;
    BaselinesIff(p, outcome, 4);
  }

  /** Which phase can follow which, and on which outcome. */
  lemma NextPhase(p: Params, f: Fields, flipped: bool)
    requires p.Sensible() && Inv(p, f)
    ensures var g := Next(p, f, flipped);
            && g.iteration >= f.iteration
            && (g.iteration > f.iteration ==> g.phase == NOFLIP_DISTANCE_ONE)
            && (g.iteration == f.iteration && f.phase == NOFLIP_DISTANCE_ONE ==>
                  g.phase == if flipped then NOFLIP_DISTANCE_ONE else NOFLIP_DISTANCE_TWO)
            && (g.iteration == f.iteration && f.phase == NOFLIP_DISTANCE_TWO ==>
                  !flipped && g.phase == HAMMER_TOLERANCE)
            && (g.iteration == f.iteration && (f.phase == HAMMER_TOLERANCE || f.phase == MAX_DILUTION) ==>
                  g.phase == HAMMER_TOLERANCE || g.phase == MAX_DILUTION)
  {
    PositiveProduct(f.dilution, p.multiplier);
  }
}
