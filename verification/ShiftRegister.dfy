/** Feedback shift registers over any state type: a message is folded in byte by byte, each byte
    being mixed into the state before the register takes a fixed number of steps. */
module ShiftRegister {

  /** `plus` mixes two states; `input` is a byte as a state; `up` makes room for one more byte. */
  datatype Register<!T> = Register(
    step: T -> T, plus: (T, T) -> T, zero: T, input: bv8 -> T, up: T -> T, width: nat)

  function Steps<T>(r: Register<T>, state: T, n: nat): T
    decreases n, state
  {
    if n == 0 then state else Steps(r, r.step(state), n - 1)
  }

  function Absorb<T>(r: Register<T>, state: T, byte: bv8): T {
    Steps(r, r.plus(state, r.input(byte)), r.width)
  }

  function Fold<T>(r: Register<T>, state: T, data: seq<bv8>): T
    decreases |data|
  {
    if |data| == 0 then state else Fold(r, Absorb(r, state, data[0]), data[1..])
  }

  /** A few bytes as one state, the first byte lowest. */
  function Word<T>(r: Register<T>, window: seq<bv8>): T
    decreases |window|
  {
    if |window| == 0 then r.zero else r.plus(r.input(window[0]), r.up(Word(r, window[1..])))
  }

  ghost predicate Group<T(!new)>(r: Register<T>) {
    && (forall a, b, c {:trigger r.plus(a, r.plus(b, c)), r.plus(a, b)} ::
          r.plus(r.plus(a, b), c) == r.plus(a, r.plus(b, c)))
    && (forall a :: r.plus(a, r.zero) == a)
  }

  ghost predicate Cancels<T(!new)>(r: Register<T>) {
    && (forall a, b, x :: r.plus(a, x) == r.plus(b, x) ==> a == b)
    && (forall a, b, x :: r.plus(x, a) == r.plus(x, b) ==> a == b)
  }

  ghost predicate Linear<T(!new)>(r: Register<T>) {
    forall a, b :: r.step(r.plus(a, b)) == r.plus(r.step(a), r.step(b))
  }

  ghost predicate Injective<T(!new)>(r: Register<T>) {
    forall a, b :: r.step(a) == r.step(b) ==> a == b
  }

  /** Up to three bytes, moved up to make room for another, come back after one byte's steps. */
  ghost predicate BringsBack<T(!new)>(r: Register<T>) {
    forall w: seq<bv8> :: |w| <= 3 ==> Steps(r, r.up(Word(r, w)), r.width) == Word(r, w)
  }

  ghost predicate WordsDiffer<T(!new)>(r: Register<T>) {
    forall x: seq<bv8>, y: seq<bv8> :: |x| == |y| <= 4 && Word(r, x) == Word(r, y) ==> x == y
  }

  lemma {:induction false} StepsInjective<T(!new)>(r: Register<T>, a: T, b: T, n: nat)
    requires Injective(r) && Steps(r, a, n) == Steps(r, b, n)
    ensures a == b
    decreases n
  {
    if n > 0 { StepsInjective(r, r.step(a), r.step(b), n - 1); }
  }

  lemma {:induction false} StepsLinear<T(!new)>(r: Register<T>, a: T, b: T, n: nat)
    requires Linear(r)
    ensures Steps(r, r.plus(a, b), n) == r.plus(Steps(r, a, n), Steps(r, b, n))
    decreases n
  {
    if n > 0 { StepsLinear(r, r.step(a), r.step(b), n - 1); }
  }

  lemma {:induction false} StepsAdd<T>(r: Register<T>, a: T, m: nat, n: nat)
    ensures Steps(r, a, m + n) == Steps(r, Steps(r, a, m), n)
    decreases m
  {
    if m > 0 { StepsAdd(r, r.step(a), m - 1, n); }
  }

  /** Mixing in a word and stepping out one byte leaves the absorbed byte and the rest of it. */
  lemma AbsorbPart<T(!new)>(r: Register<T>, state: T, window: seq<bv8>)
    requires Linear(r) && Group(r) && BringsBack(r) && 0 < |window| <= 4
    ensures Steps(r, r.plus(state, Word(r, window)), r.width)
         == r.plus(Absorb(r, state, window[0]), Word(r, window[1..]))
  {
    var first, moved := r.plus(state, r.input(window[0])), r.up(Word(r, window[1..]));
    assert r.plus(state, Word(r, window)) == r.plus(first, moved);
    StepsLinear(r, first, moved, r.width);
  }

  /** Folding in a short window is stepping out its word. */
  lemma {:induction false} FoldIsWord<T(!new)>(r: Register<T>, state: T, window: seq<bv8>)
    requires Linear(r) && Group(r) && BringsBack(r) && |window| <= 4
    ensures Fold(r, state, window) == Steps(r, r.plus(state, Word(r, window)), r.width * |window|)
    decreases |window|
  {
    if |window| > 0 {
      var mixed := r.plus(state, Word(r, window));
      AbsorbPart(r, state, window);
      FoldIsWord(r, Absorb(r, state, window[0]), window[1..]);
      assert r.width * |window| == r.width + r.width * |window[1..]|;
      StepsAdd(r, mixed, r.width, r.width * |window[1..]|);
    }
  }

  lemma {:induction false} FoldInjective<T(!new)>(r: Register<T>, a: T, b: T, data: seq<bv8>)
    requires Injective(r) && Cancels(r) && Fold(r, a, data) == Fold(r, b, data)
    ensures a == b
    decreases |data|
  {
    if |data| > 0 {
      var byte := r.input(data[0]);
      FoldInjective(r, Absorb(r, a, data[0]), Absorb(r, b, data[0]), data[1..]);
      StepsInjective(r, r.plus(a, byte), r.plus(b, byte), r.width);
    }
  }

  lemma {:induction false} FoldConcat<T>(r: Register<T>, state: T, a: seq<bv8>, b: seq<bv8>)
    ensures Fold(r, state, a + b) == Fold(r, Fold(r, state, a), b)
    decreases |a|
  {
    if |a| == 0 {
      assert a + b == b;
    } else {
      FoldConcat(r, Absorb(r, state, a[0]), a[1..], b);
      assert (a + b)[1..] == a[1..] + b;
    }
  }

  lemma SameFoldSameSteps<T(!new)>(r: Register<T>, state: T, x: seq<bv8>, y: seq<bv8>, n: nat)
    requires Linear(r) && Group(r) && BringsBack(r) && |x| == |y| <= 4 && n == r.width * |x|
    requires Fold(r, state, x) == Fold(r, state, y)
    ensures Steps(r, r.plus(state, Word(r, x)), n) == Steps(r, r.plus(state, Word(r, y)), n)
  {
    FoldIsWord(r, state, x);
    FoldIsWord(r, state, y);
  }

  lemma SameStepsSameWindow<T(!new)>(r: Register<T>, state: T, x: seq<bv8>, y: seq<bv8>, n: nat)
    requires Cancels(r) && Injective(r) && WordsDiffer(r) && |x| == |y| <= 4
    requires Steps(r, r.plus(state, Word(r, x)), n) == Steps(r, r.plus(state, Word(r, y)), n)
    ensures x == y
  {
    StepsInjective(r, r.plus(state, Word(r, x)), r.plus(state, Word(r, y)), n);
  }

  lemma WindowDecides<T(!new)>(r: Register<T>, state: T, x: seq<bv8>, y: seq<bv8>)
    requires Linear(r) && Group(r) && BringsBack(r) && Cancels(r) && Injective(r) && WordsDiffer(r)
    requires |x| == |y| <= 4 && Fold(r, state, x) == Fold(r, state, y)
    ensures x == y
  {
    SameFoldSameSteps(r, state, x, y, r.width * |x|);
    SameStepsSameWindow(r, state, x, y, r.width * |x|);
  }

  /** Whatever surrounds it, a window of up to four bytes decides the folded state. */
  lemma BurstDecides<T(!new)>(r: Register<T>, state: T, before: seq<bv8>, x: seq<bv8>, y: seq<bv8>, after: seq<bv8>)
    requires Linear(r) && Group(r) && BringsBack(r) && Cancels(r) && Injective(r) && WordsDiffer(r)
    requires |x| == |y| <= 4
    requires Fold(r, state, before + x + after) == Fold(r, state, before + y + after)
    ensures x == y
  {
    var middle := Fold(r, state, before);
    FoldConcat(r, state, before, x);
    FoldConcat(r, state, before, y);
    FoldConcat(r, state, before + x, after);
    FoldConcat(r, state, before + y, after);
    FoldInjective(r, Fold(r, middle, x), Fold(r, middle, y), after);
    WindowDecides(r, middle, x, y);
  }
}
