/**
 * The decoding text effect. While active, an interval redraws the text every
 * tick: each position either shows its own character or a random glyph of
 * the alphabet, and a per-position counter, advanced at random, locks the
 * position on its own character once it reaches ten. Punctuation and spaces
 * pass through unchanged and are never locked. Before the first tick an
 * active text shows a placeholder of block glyphs.
 */
module DecodeText {
  import opened RandomSource

  const Upper: string := "ABCDEFGHIJKLMNOPQRSTUVWXYZ"
  const Lower: string := "abcdefghijklmnopqrstuvwxyz"
  const Digits: string := "0123456789"
  const Symbols: string := "@#$%^&*"
  /** The glyphs a scrambled position is drawn from: the 69 characters of `characters`, in order. */
  const Alphabet: string := Upper + Lower + Digits + Symbols

  /** `n` consecutive characters from `first` on. */
  function CharRange(first: char, n: nat): (r: string)
    requires first as int + n <= 0xD800
    ensures |r| == n
    ensures forall k :: 0 <= k < n ==> first <= r[k] && r[k] as int < first as int + n
  {
    seq(n, i requires 0 <= i < n => (first as int + i) as char)
  }

  /** The letters and digits of the alphabet are three runs of consecutive code points. */
  lemma AlphabetRuns()
    ensures Upper == CharRange('A', 26)
    ensures Lower == CharRange('a', 26)
    ensures Digits == CharRange('0', 10)
  {
  }
  /** A counter at this value locks its position (`maxIterations`). */
  const MaxIterations: nat := 10
  /** A position's counter advances when its roll falls below this. */
  const AdvanceChance: real := 0.3

  /**
   * Characters every tick shows as themselves. None of them is a glyph of
   * the alphabet, and all but ':' are also kept by the placeholder.
   */
  function IsPassThrough(c: char): (b: bool)
    ensures b ==> c !in Alphabet
    ensures b && c != ':' ==> KeptByPlaceholder(c)
  {
    AlphabetRuns();
    c == ' ' || c == '\n' || c == '.' || c == ',' || c == ':' || c == '(' || c == ')'
  }

  /** The two `Math.random()` draws a position may make in one tick. */
  datatype Roll = Roll(advance: real, glyph: real)

  /** One roll per position of `text`. */
  predicate AreRolls(text: string, rolls: seq<Roll>) {
    |rolls| == |text| &&
    forall k :: 0 <= k < |rolls| ==> IsRoll(rolls[k].advance) && IsRoll(rolls[k].glyph)
  }

  /** The two arrays of a run, `characterProgress` and `isCompleted`, as values. */
  datatype Progress = Progress(counters: seq<nat>, completed: seq<bool>)

  predicate Fits(text: string, p: Progress) {
    |p.counters| == |text| && |p.completed| == |text|
  }

  /** The arrays as the effect allocates them: all counters 0, nothing completed. */
  function Start(text: string): (p: Progress)
    ensures Fits(text, p)
  {
    Progress(seq(|text|, _ => 0), seq(|text|, _ => false))
  }

  /**
   * The invariant of a run: counters never pass ten, a position is completed
   * exactly when its counter is ten, and a pass-through position's counter
   * never moves.
   */
  ghost predicate Inv(text: string, p: Progress) {
    && Fits(text, p)
    && forall k :: 0 <= k < |text| ==>
      && p.counters[k] <= MaxIterations
      && (p.completed[k] <==> p.counters[k] == MaxIterations)
      && (IsPassThrough(text[k]) ==> p.counters[k] == 0)
  }

  /** `isCompleted.every(Boolean)`: the test that stops the interval. */
  function AllCompleted(p: Progress): (b: bool)
    ensures b <==> false !in p.completed
  {
    forall k :: 0 <= k < |p.completed| ==> p.completed[k]
  }

  /** What one position shows after a tick, and its new counter and flag. */
  datatype Cell = Cell(shown: char, counter: nat, completed: bool)

  /**
   * The body of the per-character `map` for one position. It shows either
   * the position's own character or a glyph of the alphabet, and its own
   * character once locked; the counter moves by at most one, and a
   * pass-through or locked position keeps its counter and flag.
   */
  function StepAt(c: char, counter: nat, completed: bool, roll: Roll): (cell: Cell)
    requires IsRoll(roll.glyph)
    ensures cell.shown == c || cell.shown in Alphabet
    ensures cell.completed ==> cell.shown == c
    ensures counter <= cell.counter <= counter + 1
    ensures IsPassThrough(c) || completed ==> cell == Cell(c, counter, completed)
    ensures !completed && cell.completed ==> cell.counter >= MaxIterations
  {
    if IsPassThrough(c) || completed then Cell(c, counter, completed)
    else
      var n := if roll.advance < AdvanceChance then counter + 1 else counter;
      if n >= MaxIterations then Cell(c, n, true)
      else Cell(Alphabet[PickIndex(roll.glyph, |Alphabet|)], n, false)
  }

  /** The displayed string and the new arrays after one tick. */
  datatype Frame = Frame(display: string, next: Progress)

  /** One interval tick over the whole text. */
  function Step(text: string, p: Progress, rolls: seq<Roll>): (f: Frame)
    requires Fits(text, p) && AreRolls(text, rolls)
    ensures |f.display| == |text| && Fits(text, f.next)
  {
    var cells := seq(|text|, k requires 0 <= k < |text| =>
      StepAt(text[k], p.counters[k], p.completed[k], rolls[k]));
    Frame(seq(|text|, k requires 0 <= k < |text| => cells[k].shown),
          Progress(seq(|text|, k requires 0 <= k < |text| => cells[k].counter),
                   seq(|text|, k requires 0 <= k < |text| => cells[k].completed)))
  }

  /** The arrays start valid. */
  lemma StartIsValid(text: string)
    ensures Inv(text, Start(text))
    ensures |text| > 0 ==> !AllCompleted(Start(text))
  {
    if |text| > 0 {
      assert !Start(text).completed[0];
    }
  }

  /** Position `k` of a tick is the per-character step of that position. */
  lemma StepCell(text: string, p: Progress, rolls: seq<Roll>, k: nat)
    requires Fits(text, p) && AreRolls(text, rolls) && k < |text|
    ensures var f, cell := Step(text, p, rolls), StepAt(text[k], p.counters[k], p.completed[k], rolls[k]);
      f.display[k] == cell.shown && f.next.counters[k] == cell.counter && f.next.completed[k] == cell.completed
  {
  }

  /** Every tick keeps the invariant. */
  lemma StepKeepsInv(text: string, p: Progress, rolls: seq<Roll>)
    requires Inv(text, p) && AreRolls(text, rolls)
    ensures Inv(text, Step(text, p, rolls).next)
  {
  }

  /**
   * What one tick shows at position `k`: a pass-through character or a
   * completed position shows its own character; any other position shows a
   * glyph of the alphabet. A counter moves by at most one, never back, and a
   * completed position stays completed with its counter unchanged.
   */
  lemma StepAtPosition(text: string, p: Progress, rolls: seq<Roll>, k: nat)
    requires Inv(text, p) && AreRolls(text, rolls) && k < |text|
    ensures var f := Step(text, p, rolls);
      && (IsPassThrough(text[k]) || f.next.completed[k] ==> f.display[k] == text[k])
      && (!IsPassThrough(text[k]) && !f.next.completed[k] ==> f.display[k] in Alphabet)
      && p.counters[k] <= f.next.counters[k] <= p.counters[k] + 1
      && (p.completed[k] ==> f.next.completed[k] && f.next.counters[k] == p.counters[k])
  {
  }

  /**
   * A position that is not pass-through becomes completed on exactly the tick
   * its counter reaches ten.
   */
  lemma LocksWhenCounterReachesMax(text: string, p: Progress, rolls: seq<Roll>, k: nat)
    requires Inv(text, p) && AreRolls(text, rolls) && k < |text|
    requires !p.completed[k]
    ensures Step(text, p, rolls).next.completed[k]
      <==> Step(text, p, rolls).next.counters[k] == MaxIterations
    ensures Step(text, p, rolls).next.completed[k]
      ==> !IsPassThrough(text[k]) && p.counters[k] == MaxIterations - 1 && rolls[k].advance < AdvanceChance
  {
  }

  /**
   * Once every position that is not pass-through is locked, a tick shows the
   * text itself.
   */
  lemma DecodedStepShowsText(text: string, p: Progress, rolls: seq<Roll>)
    requires Inv(text, p) && AreRolls(text, rolls)
    requires forall k :: 0 <= k < |text| && !IsPassThrough(text[k]) ==> p.completed[k]
    ensures Step(text, p, rolls).display == text
  {
    var f := Step(text, p, rolls);
    forall k | 0 <= k < |text|
      ensures f.display[k] == text[k]
    {
      assert f.display[k] == StepAt(text[k], p.counters[k], p.completed[k], rolls[k]).shown;
    }
  }

  /**
   * The stop test, under the invariant: every position is completed exactly
   * when the text has no pass-through character and every counter is ten.
   */
  lemma StopMeansFullyDecoded(text: string, p: Progress)
    requires Inv(text, p)
    ensures AllCompleted(p) <==>
      forall k :: 0 <= k < |text| ==> !IsPassThrough(text[k]) && p.counters[k] == MaxIterations
  {
  }

  /** The arrays after a sequence of ticks, one roll sequence per tick. */
  function Run(text: string, p: Progress, ticks: seq<seq<Roll>>): (q: Progress)
    requires Fits(text, p)
    requires forall t :: 0 <= t < |ticks| ==> AreRolls(text, ticks[t])
    ensures Fits(text, q)
    decreases |ticks|
  {
    if ticks == [] then p else Run(text, Step(text, p, ticks[0]).next, ticks[1..])
  }

  /** Any number of ticks keeps the invariant. */
  lemma {:induction false} RunKeepsInv(text: string, p: Progress, ticks: seq<seq<Roll>>)
    requires Inv(text, p)
    requires forall t :: 0 <= t < |ticks| ==> AreRolls(text, ticks[t])
    ensures Inv(text, Run(text, p, ticks))
    decreases |ticks|
  {
    if ticks != [] {
      StepKeepsInv(text, p, ticks[0]);
      RunKeepsInv(text, Step(text, p, ticks[0]).next, ticks[1..]);
    }
  }

  /**
   * Over any number of ticks a counter never decreases, and a completed
   * position stays completed (so every later tick shows its own character).
   */
  lemma {:induction false} RunIsMonotone(text: string, p: Progress, ticks: seq<seq<Roll>>, k: nat)
    requires Inv(text, p) && k < |text|
    requires forall t :: 0 <= t < |ticks| ==> AreRolls(text, ticks[t])
    ensures p.counters[k] <= Run(text, p, ticks).counters[k]
    ensures p.completed[k] ==> Run(text, p, ticks).completed[k]
    decreases |ticks|
  {
    if ticks != [] {
      StepAtPosition(text, p, ticks[0], k);
      StepKeepsInv(text, p, ticks[0]);
      RunIsMonotone(text, Step(text, p, ticks[0]).next, ticks[1..], k);
    }
  }

  /**
   * A text with a pass-through character never stops: from the start, no
   * sequence of ticks completes every position.
   */
  lemma PassThroughNeverStops(text: string, ticks: seq<seq<Roll>>, k: nat)
    requires k < |text| && IsPassThrough(text[k])
    requires forall t :: 0 <= t < |ticks| ==> AreRolls(text, ticks[t])
    ensures !AllCompleted(Run(text, Start(text), ticks))
  {
    StartIsValid(text);
    RunKeepsInv(text, Start(text), ticks);
    StopMeansFullyDecoded(text, Run(text, Start(text), ticks));
  }

  // ---------------------------------------------------------------------------
  // One run of the effect, over its two arrays

  /** The closure state of one activation: the text and its two arrays. */
  class DecodeRun {
    const text: string
    const characterProgress: array<nat>
    const isCompleted: array<bool>

    ghost function State(): Progress
      reads characterProgress, isCompleted
    {
      Progress(characterProgress[..], isCompleted[..])
    }

    ghost predicate Valid()
      reads characterProgress, isCompleted
    {
      Inv(text, State())
    }

    /** The array initialisation of the effect. */
    constructor (text: string)
      ensures this.text == text && Valid() && State() == Start(text)
      ensures fresh(characterProgress) && fresh(isCompleted)
    {
      this.text := text;
      characterProgress := new nat[|text|](_ => 0);
      isCompleted := new bool[|text|](_ => false);
      new;
      assert characterProgress[..] == Start(text).counters;
      assert isCompleted[..] == Start(text).completed;
      StartIsValid(text);
    }

    /**
     * One interval tick: build the displayed string position by position,
     * updating both arrays in place, then evaluate the stop test.
     */
    method Tick(rolls: seq<Roll>) returns (display: string, stop: bool)
      requires Valid() && AreRolls(text, rolls)
      modifies characterProgress, isCompleted
      ensures Valid()
      ensures display == Step(text, old(State()), rolls).display
      ensures State() == Step(text, old(State()), rolls).next
      ensures stop == AllCompleted(State())
    {
      ghost var frame := Step(text, old(State()), rolls);
      StepKeepsInv(text, old(State()), rolls);
      display := "";
      var k := 0;
      while k < |text|
        invariant 0 <= k <= |text| && |display| == k
        invariant forall m :: 0 <= m < k ==>
          && display[m] == frame.display[m]
          && characterProgress[m] == frame.next.counters[m]
          && isCompleted[m] == frame.next.completed[m]
        invariant forall m :: k <= m < |text| ==>
          characterProgress[m] == old(characterProgress[m]) && isCompleted[m] == old(isCompleted[m])
      {
        var c := text[k];
        StepCell(text, old(State()), rolls, k);
        assert old(State()).counters[k] == characterProgress[k] && old(State()).completed[k] == isCompleted[k];
        if IsPassThrough(c) || isCompleted[k] {
          display := display + [c];
        } else {
          if rolls[k].advance < AdvanceChance {
            characterProgress[k] := characterProgress[k] + 1;
          }
          if characterProgress[k] >= MaxIterations {
            isCompleted[k] := true;
            display := display + [c];
          } else {
            display := display + [Alphabet[PickIndex(rolls[k].glyph, |Alphabet|)]];
          }
        }
        k := k + 1;
      }
      assert characterProgress[..] == frame.next.counters;
      assert isCompleted[..] == frame.next.completed;
      stop := AllMarked();
    }

    /** `isCompleted.every(Boolean)`, scanning the array. */
    method AllMarked() returns (stop: bool)
      ensures stop == AllCompleted(State())
    {
      stop := true;
      var m := 0;
      while m < isCompleted.Length
        invariant 0 <= m <= isCompleted.Length
        invariant stop <==> forall q :: 0 <= q < m ==> isCompleted[q]
      {
        stop := stop && isCompleted[m];
        m := m + 1;
      }
    }
  }

  // ---------------------------------------------------------------------------
  // What the component renders

  /** JavaScript's `\s`: the characters the placeholder's regular expression keeps as space. */
  predicate IsJsWhitespace(c: char) {
    c == '\t' || c == '\n' || c == '\U{000B}' || c == '\U{000C}' || c == '\r' || c == ' ' ||
    c == '\U{00A0}' || c == '\U{1680}' || ('\U{2000}' <= c <= '\U{200A}') ||
    c == '\U{2028}' || c == '\U{2029}' || c == '\U{202F}' || c == '\U{205F}' ||
    c == '\U{3000}' || c == '\U{FEFF}'
  }

  /** Characters the placeholder keeps: whitespace, '.', ',', '(' and ')'. */
  predicate KeptByPlaceholder(c: char) {
    IsJsWhitespace(c) || c == '.' || c == ',' || c == '(' || c == ')'
  }

  /** The full block, U+2588, that stands for every hidden character. */
  const BlockGlyph: char := '\U{2588}'

  /**
   * The replacement string as it stands in the file: the three characters
   * that the UTF-8 bytes of the full block spell when read as Windows-1252.
   */
  const BlockAsWritten: string := "\U{00E2}\U{2013}\U{02C6}"

  /**
   * `text.replace(/[^\s\n.,()]/g, ...)` with the replacement as written: it is
   * never shorter than the text, and every character it shows comes from the
   * text or from the replacement.
   */
  function PlaceholderAsWritten(text: string): (r: string)
    ensures |r| >= |text|
    ensures forall k :: 0 <= k < |r| ==> r[k] in text || r[k] in BlockAsWritten
  {
    if text == [] then []
    else
      var head := if KeptByPlaceholder(text[0]) then [text[0]] else BlockAsWritten;
      head + PlaceholderAsWritten(text[1..])
  }

  /** The number of characters of `text` the placeholder hides. */
  function HiddenCount(text: string): nat
  {
    if text == [] then 0
    else (if KeptByPlaceholder(text[0]) then 0 else 1) + HiddenCount(text[1..])
  }

  /**
   * As written, the placeholder is two characters longer than the text for
   * every character it hides, so it has the text's length only when it hides
   * nothing.
   */
  lemma {:induction false} PlaceholderAsWrittenStretches(text: string)
    ensures |PlaceholderAsWritten(text)| == |text| + 2 * HiddenCount(text)
  {
    if text != [] {
      PlaceholderAsWrittenStretches(text[1..]);
    }
  }

  /** The one-letter text "A" shows a three-character placeholder. */
  lemma PlaceholderAsWrittenCounterexample()
    ensures PlaceholderAsWritten("A") == BlockAsWritten
    ensures |PlaceholderAsWritten("A")| == 3 != |"A"|
  {
    assert !KeptByPlaceholder('A');
    assert "A"[1..] == [];
  }

  /** The placeholder as intended: one full block per hidden character. */
  function Placeholder(text: string): (r: string)
    ensures |r| == |text|
  {
    seq(|text|, k requires 0 <= k < |text| => if KeptByPlaceholder(text[k]) then text[k] else BlockGlyph)
  }

  /**
   * The placeholder keeps exactly whitespace, '.', ',', '(' and ')'; it
   * hides ':' although every tick shows ':' as itself.
   */
  lemma PlaceholderShape(text: string, k: nat)
    requires k < |text|
    ensures KeptByPlaceholder(text[k]) ==> Placeholder(text)[k] == text[k]
    ensures !KeptByPlaceholder(text[k]) ==> Placeholder(text)[k] == BlockGlyph
    ensures text[k] == ':' ==> IsPassThrough(text[k]) && Placeholder(text)[k] == BlockGlyph
  {
  }

  /**
   * What the span shows: the last displayed string if there is one, else the
   * placeholder while active and nothing while inactive.
   */
  function Rendered(displayText: string, text: string, isActive: bool): (out: string)
    ensures displayText != "" ==> out == displayText
    ensures displayText == "" && isActive ==> |out| == |text|
    ensures displayText == "" && !isActive ==> out == ""
  {
    if displayText != "" then displayText else if isActive then Placeholder(text) else ""
  }
}
