/** Programs whose only control flow is a counted backward jump that shares one
    loop counter, and the sequence of instructions such a program executes.
    The payload executor and the payload verifier both run programs of this kind. */
module Loops {

  /** Control flow of one instruction. `Back(count, jump)` jumps back `jump`
      instructions until the shared counter reaches `count`. */
  datatype Shape = Plain | Back(count: nat, jump: nat)

  datatype Control = Control(pc: nat, loop: nat)

  ghost predicate JumpsInRange(s: seq<Shape>) {
    forall i :: 0 <= i < |s| && s[i].Back? ==> s[i].jump <= i
  }

  /** No loop has a loop in its body. */
  ghost predicate NonNested(s: seq<Shape>) {
    && JumpsInRange(s)
    && forall i, k :: 0 <= k < i < |s| && s[i].Back? && i - s[i].jump <= k ==> s[k].Plain?
  }

  /** One instruction of control flow; a control outside the program stays put. */
  function Next(s: seq<Shape>, c: Control): Control
    requires JumpsInRange(s)
  {
    if c.pc >= |s| then c
    else match s[c.pc]
         case Plain => Control(c.pc + 1, c.loop)
         case Back(count, jump) =>
           if c.loop < count then Control(c.pc - jump, c.loop + 1) else Control(c.pc + 1, 0)
  }

  function Steps(s: seq<Shape>, c: Control, n: nat): Control
    requires JumpsInRange(s)
    decreases n
  {
    if n == 0 then c else Steps(s, Next(s, c), n - 1)
  }

  function Repeat<T>(xs: seq<T>, n: nat): (r: seq<T>)
    decreases n
  {
    if n == 0 then [] else xs + Repeat(xs, n - 1)
  }

  /** Everything executed on behalf of instruction `i`: a loop instruction is visited
      `count + 1` times and re-executes its body between two visits. */
  function Visit<T>(s: seq<Shape>, xs: seq<T>, i: nat): (r: seq<T>)
    requires NonNested(s) && |xs| == |s| && i < |s|
  {
    match s[i]
    case Plain => [xs[i]]
    case Back(count, jump) => [xs[i]] + Repeat(xs[i - jump..i] + [xs[i]], count)
  }

  /** Denotation of a loop program: the instructions it executes, in order. */
  function Unroll<T>(s: seq<Shape>, xs: seq<T>, n: nat): (r: seq<T>)
    requires NonNested(s) && |xs| == |s| && n <= |s|
    decreases n
  {
    if n == 0 then [] else Unroll(s, xs, n - 1) + Visit(s, xs, n - 1)
  }

  /** Starting at `c`, the machine executes exactly `tr` and then stands at `c'`. The shared
      counter never exceeds the count of the loop being visited. */
  ghost predicate Follows<T>(s: seq<Shape>, xs: seq<T>, c: Control, tr: seq<T>, c': Control)
    requires JumpsInRange(s) && |xs| == |s|
    decreases |tr|
  {
    if tr == [] then c == c'
    else
      && c.pc < |s| && tr[0] == xs[c.pc]
      && (s[c.pc].Back? ==> c.loop <= s[c.pc].count)
      && Follows(s, xs, Next(s, c), tr[1..], c')
  }

  lemma {:induction false} FollowsJoin<T>(s: seq<Shape>, xs: seq<T>, a: Control, t: seq<T>, b: Control, u: seq<T>,
                                          c: Control)
    requires JumpsInRange(s) && |xs| == |s|
    requires Follows(s, xs, a, t, b) && Follows(s, xs, b, u, c)
    ensures Follows(s, xs, a, t + u, c)
    decreases |t|
  {
    if t == [] {
      assert t + u == u;
    } else {
      FollowsJoin(s, xs, Next(s, a), t[1..], b, u, c);
      assert (t + u)[1..] == t[1..] + u;
    }
  }

  /** Straight-line code falls through and leaves the counter alone. */
  lemma {:induction false} FollowsStraight<T>(s: seq<Shape>, xs: seq<T>, lo: nat, hi: nat, loop: nat)
    requires JumpsInRange(s) && |xs| == |s| && lo <= hi <= |s|
    requires forall k :: lo <= k < hi ==> s[k].Plain?
    ensures Follows(s, xs, Control(lo, loop), xs[lo..hi], Control(hi, loop))
    decreases hi - lo
  {
    if lo < hi {
      FollowsStraight(s, xs, lo + 1, hi, loop);
      assert xs[lo..hi][1..] == xs[lo + 1..hi];
    }
  }

  /** A loop reached with the counter at `loop` visits itself and its body until the counter is used up. */
  lemma {:induction false} FollowsLoop<T>(s: seq<Shape>, xs: seq<T>, n: nat, loop: nat)
    requires NonNested(s) && |xs| == |s| && n < |s| && s[n].Back? && loop <= s[n].count
    ensures Follows(s, xs, Control(n, loop),
                    [xs[n]] + Repeat(xs[n - s[n].jump..n] + [xs[n]], s[n].count - loop), Control(n + 1, 0))
    decreases s[n].count - loop
  {
    hide Follows, Next;
    var Back(count, jump) := s[n];
    var body, x, here := xs[n - jump..n], [xs[n]], Control(n, loop);
    FollowsOne(s, xs, here);
    NextBack(s, n, loop);
    if loop == count {
      assert x + [] == x;
    } else {
      var target, again, end := Control(n - jump, loop + 1), Control(n, loop + 1), Control(n + 1, 0);
      FollowsStraight(s, xs, n - jump, n, loop + 1);
      FollowsJoin(s, xs, here, x, target, body, again);
      FollowsLoop(s, xs, n, loop + 1);
      var rest := Repeat(body + x, count - loop - 1);
      FollowsJoin(s, xs, here, x + body, again, x + rest, end);
      assert (x + body) + (x + rest) == x + ((body + x) + rest);
    }
  }

  lemma NextBack(s: seq<Shape>, n: nat, loop: nat)
    requires JumpsInRange(s) && n < |s| && s[n].Back?
    ensures Next(s, Control(n, loop))
         == if loop < s[n].count then Control(n - s[n].jump, loop + 1) else Control(n + 1, 0)
  {
  }

  lemma FollowsOne<T>(s: seq<Shape>, xs: seq<T>, c: Control)
    requires JumpsInRange(s) && |xs| == |s| && c.pc < |s|
    requires s[c.pc].Back? ==> c.loop <= s[c.pc].count
    ensures Follows(s, xs, c, [xs[c.pc]], Next(s, c))
  {
    assert [xs[c.pc]][1..] == [];
  }

  lemma FollowsNothing<T>(s: seq<Shape>, xs: seq<T>, c: Control)
    requires JumpsInRange(s) && |xs| == |s|
    ensures Follows(s, xs, c, [], c)
  {
  }

  lemma FollowsVisit<T>(s: seq<Shape>, xs: seq<T>, i: nat)
    requires NonNested(s) && |xs| == |s| && i < |s|
    ensures Follows(s, xs, Control(i, 0), Visit(s, xs, i), Control(i + 1, 0))
  {
    hide Follows, Repeat;
    if s[i].Plain? {
      FollowsOne(s, xs, Control(i, 0));
    } else {
      FollowsLoop(s, xs, i, 0);
    }
  }

  /** The machine executes exactly the unrolled program and falls out with the counter back at 0. */
  lemma {:induction false} RunsUnrolled<T>(s: seq<Shape>, xs: seq<T>, n: nat)
    requires NonNested(s) && |xs| == |s| && n <= |s|
    ensures Follows(s, xs, Control(0, 0), Unroll(s, xs, n), Control(n, 0))
    decreases n
  {
    hide Follows, Visit, JumpsInRange, Next;
    if n == 0 {
      FollowsNothing(s, xs, Control(0, 0));
    } else {
      RunsUnrolled(s, xs, n - 1);
      FollowsVisit(s, xs, n - 1);
      FollowsJoin(s, xs, Control(0, 0), Unroll(s, xs, n - 1), Control(n - 1, 0), Visit(s, xs, n - 1), Control(n, 0));
    }
  }

  lemma {:induction false} FollowsIsSteps<T>(s: seq<Shape>, xs: seq<T>, c: Control, tr: seq<T>, c': Control)
    requires JumpsInRange(s) && |xs| == |s| && Follows(s, xs, c, tr, c')
    ensures Steps(s, c, |tr|) == c'
    decreases |tr|
  {
    if tr != [] { FollowsIsSteps(s, xs, Next(s, c), tr[1..], c'); }
  }

  /** What `n` steps from `c` execute. */
  function Trace<T>(s: seq<Shape>, xs: seq<T>, c: Control, n: nat): seq<T>
    requires JumpsInRange(s) && |xs| == |s|
    decreases n
  {
    if n == 0 || c.pc >= |s| then [] else [xs[c.pc]] + Trace(s, xs, Next(s, c), n - 1)
  }

  lemma {:induction false} TraceSnoc<T>(s: seq<Shape>, xs: seq<T>, c: Control, n: nat)
    requires JumpsInRange(s) && |xs| == |s|
    ensures var last := Steps(s, c, n);
            && Steps(s, c, n + 1) == Next(s, last)
            && Trace(s, xs, c, n + 1) == Trace(s, xs, c, n) + if last.pc < |s| then [xs[last.pc]] else []
    decreases n
  {
    hide JumpsInRange;
    var next := Next(s, c);
    if n == 0 {
      assert Steps(s, c, 1) == Steps(s, next, 0);
      assert Trace(s, xs, next, 0) == [];
    } else {
      TraceSnoc(s, xs, next, n - 1);
      if c.pc >= |s| { StaysOut(s, c, n); }
    }
  }

  lemma {:induction false} StaysOut(s: seq<Shape>, c: Control, n: nat)
    requires JumpsInRange(s) && c.pc >= |s|
    ensures Steps(s, c, n) == c
    decreases n
  {
    if n > 0 { StaysOut(s, c, n - 1); }
  }

  /** A run that leaves the program is what its steps execute. */
  lemma {:induction false} FollowsTrace<T>(s: seq<Shape>, xs: seq<T>, c: Control, tr: seq<T>, c': Control, n: nat)
    requires JumpsInRange(s) && |xs| == |s| && Follows(s, xs, c, tr, c') && c'.pc >= |s|
    ensures Trace(s, xs, c, n) == if n <= |tr| then tr[..n] else tr
    ensures Steps(s, c, n).pc < |s| <==> n < |tr|
    decreases n
  {
    hide JumpsInRange, Next;
    if tr == [] {
      StaysOut(s, c, n);
    } else if n > 0 {
      FollowsTrace(s, xs, Next(s, c), tr[1..], c', n - 1);
    }
  }

  // ---------------------------------------------------------------- termination

  ghost predicate Halts(s: seq<Shape>)
    requires JumpsInRange(s)
  {
    exists n: nat :: Steps(s, Control(0, 0), n).pc >= |s|
  }

  /** A loop around a loop: the inner one resets the shared counter, so the outer one never
      sees it run out. `last` is the last loop inside the body of the loop at `outer`. */
  lemma {:induction false} NestedNeverLeaves(s: seq<Shape>, outer: nat, last: nat, c: Control, n: nat)
    requires JumpsInRange(s) && last < outer < |s|
    requires s[outer].Back? && s[outer].count > 0 && outer - s[outer].jump <= last
    requires s[last].Back? && forall k :: last < k < outer ==> s[k].Plain?
    requires c.pc <= outer && (c.pc > last ==> c.loop == 0)
    ensures Steps(s, c, n).pc <= outer
    decreases n
  {
    if n > 0 { NestedNeverLeaves(s, outer, last, Next(s, c), n - 1); }
  }

  lemma {:induction false} LastLoopBefore(s: seq<Shape>, outer: nat, k: nat) returns (last: nat)
    requires k < outer < |s| && s[k].Back?
    ensures k <= last < outer && s[last].Back? && forall j :: last < j < outer ==> s[j].Plain?
  {
    last := outer - 1;
    while s[last].Plain?
      invariant k <= last < outer && forall j :: last < j < outer ==> s[j].Plain?
      decreases last
    {
      last := last - 1;
    }
  }

  /** With one shared counter and positive counts a program halts exactly when no loop is nested. */
  lemma HaltsIffNonNested(s: seq<Shape>)
    requires JumpsInRange(s)
    requires forall i :: 0 <= i < |s| && s[i].Back? ==> s[i].count > 0
    ensures Halts(s) <==> NonNested(s)
  {
    if NonNested(s) {
      var run := Unroll(s, s, |s|);
      RunsUnrolled(s, s, |s|);
      FollowsIsSteps(s, s, Control(0, 0), run, Control(|s|, 0));
      assert Steps(s, Control(0, 0), |run|).pc >= |s|;
    } else {
      var i, k :| 0 <= k < i < |s| && s[i].Back? && i - s[i].jump <= k && !s[k].Plain?;
      var last := LastLoopBefore(s, i, k);
      forall n: nat ensures Steps(s, Control(0, 0), n).pc < |s| {
        NestedNeverLeaves(s, i, last, Control(0, 0), n);
      }
    }
  }

  // ---------------------------------------------------------------- algebra of unrolling

  lemma {:induction false} RepeatPlus<T>(xs: seq<T>, m: nat, n: nat)
    ensures Repeat(xs, m + n) == Repeat(xs, m) + Repeat(xs, n)
    decreases m
  {
    if m == 0 {
      assert Repeat(xs, 0) + Repeat(xs, n) == Repeat(xs, n);
    } else {
      RepeatPlus(xs, m - 1, n);
      assert xs + (Repeat(xs, m - 1) + Repeat(xs, n)) == (xs + Repeat(xs, m - 1)) + Repeat(xs, n);
    }
  }

  lemma RepeatSnoc<T>(xs: seq<T>, n: nat)
    ensures Repeat(xs, n + 1) == Repeat(xs, n) + xs
  {
    RepeatPlus(xs, n, 1);
    assert Repeat(xs, 1) == xs + Repeat(xs, 0) == xs;
  }

  lemma {:induction false} RepeatLength<T>(xs: seq<T>, n: nat)
    ensures |Repeat(xs, n)| == n * |xs|
    decreases n
  {
    if n > 0 { RepeatLength(xs, n - 1); assert (n - 1) * |xs| + |xs| == n * |xs|; }
  }

  lemma {:induction false} RepeatTwice<T>(xs: seq<T>, m: nat, n: nat)
    ensures Repeat(Repeat(xs, m), n) == Repeat(xs, m * n)
    decreases n
  {
    if n > 0 {
      RepeatTwice(xs, m, n - 1);
      RepeatPlus(xs, m, m * (n - 1));
      assert m + m * (n - 1) == m * n;
    }
  }

  /** What a prefix executes does not depend on what follows it. */
  lemma {:induction false} UnrollPrefix<T>(s: seq<Shape>, xs: seq<T>, s': seq<Shape>, xs': seq<T>, n: nat)
    requires NonNested(s) && |xs| == |s| && NonNested(s') && |xs'| == |s'|
    requires s <= s' && xs <= xs' && n <= |s|
    ensures Unroll(s', xs', n) == Unroll(s, xs, n)
    decreases n
  {
    hide Visit, NonNested;
    if n > 0 {
      UnrollPrefix(s, xs, s', xs', n - 1);
      VisitPrefix(s, xs, s', xs', n - 1);
    }
  }

  lemma VisitPrefix<T>(s: seq<Shape>, xs: seq<T>, s': seq<Shape>, xs': seq<T>, i: nat)
    requires NonNested(s) && |xs| == |s| && NonNested(s') && |xs'| == |s'|
    requires s <= s' && xs <= xs' && i < |s|
    ensures Visit(s', xs', i) == Visit(s, xs, i)
  {
    hide Repeat;
    assert s'[i] == s[i] && xs'[i] == xs[i];
    if s[i].Back? { assert xs'[i - s[i].jump..i] == xs[i - s[i].jump..i]; }
  }

  // ---------------------------------------------------------------- additive measures of a run

  function Sum<T>(f: T -> nat, xs: seq<T>): nat {
    if xs == [] then 0 else f(xs[0]) + Sum(f, xs[1..])
  }

  lemma {:induction false} SumSplit<T>(f: T -> nat, g: T -> nat, h: T -> nat, xs: seq<T>)
    requires forall i :: 0 <= i < |xs| ==> f(xs[i]) == g(xs[i]) + h(xs[i])
    ensures Sum(f, xs) == Sum(g, xs) + Sum(h, xs)
    decreases |xs|
  {
    if xs != [] {
      assert forall i :: 0 <= i < |xs[1..]| ==> xs[1..][i] == xs[i + 1];
      SumSplit(f, g, h, xs[1..]);
    }
  }

  lemma {:induction false} SumSame<T>(f: T -> nat, g: T -> nat, xs: seq<T>)
    requires forall i :: 0 <= i < |xs| ==> f(xs[i]) == g(xs[i])
    ensures Sum(f, xs) == Sum(g, xs)
    decreases |xs|
  {
    if xs != [] {
      assert forall i :: 0 <= i < |xs[1..]| ==> xs[1..][i] == xs[i + 1];
      SumSame(f, g, xs[1..]);
    }
  }

  lemma {:induction false} SumZero<T>(f: T -> nat, xs: seq<T>)
    requires forall i :: 0 <= i < |xs| ==> f(xs[i]) == 0
    ensures Sum(f, xs) == 0
    decreases |xs|
  {
    if xs != [] {
      assert forall i :: 0 <= i < |xs[1..]| ==> xs[1..][i] == xs[i + 1];
      SumZero(f, xs[1..]);
    }
  }

  lemma {:induction false} SumPlus<T>(f: T -> nat, a: seq<T>, b: seq<T>)
    ensures Sum(f, a + b) == Sum(f, a) + Sum(f, b)
  {
    if a == [] {
      assert a + b == b;
    } else {
      SumPlus(f, a[1..], b);
      assert (a + b)[1..] == a[1..] + b;
    }
  }

  lemma {:induction false} SumRepeat<T>(f: T -> nat, a: seq<T>, n: nat)
    ensures Sum(f, Repeat(a, n)) == n * Sum(f, a)
    decreases n
  {
    if n > 0 {
      SumRepeat(f, a, n - 1);
      SumPlus(f, a, Repeat(a, n - 1));
      assert n * Sum(f, a) == Sum(f, a) + (n - 1) * Sum(f, a);
    }
  }

  lemma SumOne<T>(f: T -> nat, x: T)
    ensures Sum(f, [x]) == f(x)
  {
    assert [x][1..] == [];
  }

  /** A measure of the whole run, computed without running: each loop adds `count` more
      visits of itself and of its body. */
  function ClosedForm<T>(f: T -> nat, s: seq<Shape>, xs: seq<T>, n: nat): nat
    requires NonNested(s) && |xs| == |s| && n <= |s|
    decreases n
  {
    if n == 0 then 0
    else
      ClosedForm(f, s, xs, n - 1) +
      match s[n - 1]
      case Plain => f(xs[n - 1])
      case Back(count, jump) => f(xs[n - 1]) + count * (Sum(f, xs[n - 1 - jump..n - 1]) + f(xs[n - 1]))
  }

  lemma SumVisit<T>(f: T -> nat, s: seq<Shape>, xs: seq<T>, i: nat)
    requires NonNested(s) && |xs| == |s| && i < |s|
    ensures Sum(f, Visit(s, xs, i))
         == match s[i]
            case Plain => f(xs[i])
            case Back(count, jump) => f(xs[i]) + count * (Sum(f, xs[i - jump..i]) + f(xs[i]))
  {
    hide Sum, Repeat;
    SumOne(f, xs[i]);
    if s[i].Back? {
      var body := xs[i - s[i].jump..i];
      SumPlus(f, body, [xs[i]]);
      SumRepeat(f, body + [xs[i]], s[i].count);
      SumPlus(f, [xs[i]], Repeat(body + [xs[i]], s[i].count));
    }
  }

  lemma {:induction false} SumUnroll<T>(f: T -> nat, s: seq<Shape>, xs: seq<T>, n: nat)
    requires NonNested(s) && |xs| == |s| && n <= |s|
    ensures Sum(f, Unroll(s, xs, n)) == ClosedForm(f, s, xs, n)
    decreases n
  {
    hide Visit, NonNested;
    if n > 0 {
      SumUnroll(f, s, xs, n - 1);
      SumVisit(f, s, xs, n - 1);
      SumPlus(f, Unroll(s, xs, n - 1), Visit(s, xs, n - 1));
    }
  }
}
