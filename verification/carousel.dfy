/**
 * The full-screen image carousel: a current position over `n` images that wraps around at
 * both ends, driven by the arrow buttons, the keyboard and the position dots, reset to the
 * requested start whenever it is opened or asked to start elsewhere.
 */
module Carousel {
  import opened Common

  /** `goToNext`: the last position wraps to the first. */
  function Next(i: int, n: nat): int {
    if i == n - 1 then 0 else i + 1
  }

  /** `goToPrevious`: the first position wraps to the last. */
  function Previous(i: int, n: nat): int {
    if i == 0 then n - 1 else i - 1
  }

  predicate InRange(i: int, n: nat) {
    0 <= i < n
  }

  /** Over a non-empty list both moves stay in range and undo each other. */
  lemma NextPreviousInverse(i: int, n: nat)
    requires InRange(i, n)
    ensures InRange(Next(i, n), n) && InRange(Previous(i, n), n)
    ensures Previous(Next(i, n), n) == i && Next(Previous(i, n), n) == i
  {
  }

  /** `k` presses of "next". */
  function NextTimes(i: int, n: nat, k: nat): int
    decreases k
  {
    if k == 0 then i else Next(NextTimes(i, n, k - 1), n)
  }

  /** "Next" is a rotation: up to `n` presses move that many places round the circle,
      wrapping past the last position. */
  lemma {:induction false} NextTimesRotates(i: int, n: nat, k: nat)
    requires InRange(i, n) && k <= n
    decreases k
    ensures NextTimes(i, n, k) == if i + k < n then i + k else i + k - n
  {
    if k > 0 {
      NextTimesRotates(i, n, k - 1);
    }
  }

  /** `n` presses of "next" come back to the start. */
  lemma FullTurn(i: int, n: nat)
    requires InRange(i, n)
    ensures NextTimes(i, n, n) == i
  {
    NextTimesRotates(i, n, n);
  }

  datatype KeyName = Escape | ArrowLeft | ArrowRight | OtherKey

  /** What a key press does: the new position and whether `onClose` is called. Keys are
      ignored while the carousel is closed, and Escape does not move the position. */
  function KeyDown(isOpen: bool, i: int, n: nat, key: KeyName): (r: (int, bool))
    ensures !isOpen ==> r == (i, false)
    ensures r.1 <==> isOpen && key == Escape
    ensures isOpen && key == ArrowLeft ==> r.0 == Previous(i, n)
    ensures isOpen && key == ArrowRight ==> r.0 == Next(i, n)
    ensures key == Escape || key == OtherKey ==> r.0 == i
  {
    if !isOpen then (i, false)
    else match key
      case Escape => (i, true)
      case ArrowLeft => (Previous(i, n), false)
      case ArrowRight => (Next(i, n), false)
      case OtherKey => (i, false)
  }

  /** The position after a render with new props: it returns to `initialIndex` whenever
      `initialIndex` or `isOpen` changed since the previous render. */
  function Rerender(i: int, oldStart: int, oldOpen: bool, start: int, isOpen: bool): (r: int)
    ensures start != oldStart || isOpen != oldOpen ==> r == start
    ensures start == oldStart && isOpen == oldOpen ==> r == i
  {
    if start != oldStart || isOpen != oldOpen then start else i
  }

  /** What the carousel renders: nothing when closed or without images, otherwise the image at
      the current position (absent when the position lies outside the list). */
  datatype View<T> = Nothing | Overlay(image: Option<T>)

  function Render<T>(isOpen: bool, images: seq<T>, i: int): (v: View<T>)
    ensures v.Nothing? <==> !isOpen || |images| == 0
    ensures v.Overlay? && InRange(i, |images|) ==> v.image == Some(images[i])
    ensures v.Overlay? && !InRange(i, |images|) ==> v.image.None?
  {
    if !isOpen || |images| == 0 then Nothing
    else if 0 <= i < |images| then Overlay(Some(images[i]))
    else Overlay(None)
  }

  /** The inputs of an open carousel: keys, the arrow buttons and a click on the dot of a
      position (the dots are drawn one per image). */
  datatype Input = Key(key: KeyName) | NextButton | PreviousButton | Dot(index: int)

  function Step(i: int, n: nat, input: Input): int {
    match input
    case Key(key) => KeyDown(true, i, n, key).0
    case NextButton => Next(i, n)
    case PreviousButton => Previous(i, n)
    case Dot(index) => index
  }

  function Steps(i: int, n: nat, inputs: seq<Input>): int
    decreases |inputs|
  {
    if inputs == [] then i else Steps(Step(i, n, inputs[0]), n, inputs[1..])
  }

  /** Opened at a position inside the list, the carousel always shows an image: no sequence
      of inputs moves it outside the list. */
  lemma {:induction false} StepsStayInRange(i: int, n: nat, inputs: seq<Input>)
    requires InRange(i, n)
    requires forall k :: 0 <= k < |inputs| && inputs[k].Dot? ==> InRange(inputs[k].index, n)
    decreases |inputs|
    ensures InRange(Steps(i, n, inputs), n)
  {
    if inputs != [] {
      NextPreviousInverse(i, n);
      assert forall k :: 0 <= k < |inputs[1..]| ==> inputs[1..][k] == inputs[k + 1];
      StepsStayInRange(Step(i, n, inputs[0]), n, inputs[1..]);
    }
  }
}
