/** The feature vector the fitness function compares: pitch centre, average
    note length and note count of a beat, the squared distance between two
    vectors, and the chord-id comparison of two beats. */
module Features {
  import opened Basics
  import opened Xml

  const NotePath: seq<string> := ["note"]
  const StepPath: seq<string> := ["note", "pitch", "step"]
  const OctavePath: seq<string> := ["note", "pitch", "octave"]
  const DurationPath: seq<string> := ["note", "duration"]
  const ChordPath: seq<string> := ["note", "chordid"]
  /** Paths inside one note. */
  const PitchStep: seq<string> := ["pitch", "step"]
  const PitchOctave: seq<string> := ["pitch", "octave"]
  const NoteDuration: seq<string> := ["duration"]

  function Notes(beat: Elem): seq<Elem> { FindAll(beat, NotePath) }
  function Steps(beat: Elem): seq<Elem> { FindAll(beat, StepPath) }
  function Octaves(beat: Elem): seq<Elem> { FindAll(beat, OctavePath) }
  function Durations(beat: Elem): seq<Elem> { FindAll(beat, DurationPath) }

  /** Text `ord` accepts: exactly one character. */
  predicate IsLetter(t: Option<string>) { t.Some? && |t.value| == 1 }

  /** Text `int` accepts. */
  predicate IsNumber(t: Option<string>) { t.Some? && ParseInt(t.value).Some? }

  function NumberOf(t: Option<string>): int
    requires IsNumber(t)
  {
    ParseInt(t.value).value
  }

  /** A MusicXML step letter. */
  predicate IsStepLetter(t: Option<string>) { IsLetter(t) && 'A' <= t.value[0] <= 'G' }

  /** `ord(step) - 64`: A is 1 and G is 7, so no pitch value is 0. */
  function StepValue(t: Option<string>): (v: int)
    requires IsLetter(t)
    ensures IsStepLetter(t) ==> 1 <= v <= 7
    ensures v == t.value[0] as int - 'A' as int + 1
  {
    t.value[0] as int - 64
  }

  /** When `pitchMedian` returns instead of raising: either there are no
      steps and no octaves, or there are both and each step paired with an
      octave is one character and each paired octave an integer. */
  predicate PitchesReadable(beat: Elem)
  {
    var s, o := Steps(beat), Octaves(beat);
    (s == [] && o == [])
    || (s != [] && o != []
        && forall i :: 0 <= i < |s| && i < |o| ==> IsLetter(s[i].text) && IsNumber(o[i].text))
  }

  /** The list `pitchMedian` builds: step and octave elements paired in
      order (the shorter list decides the length), each worth
      `ord(step) - 64 + 12 * octave`. */
  function PitchList(s: seq<Elem>, o: seq<Elem>): (r: seq<int>)
    requires forall i :: 0 <= i < |s| && i < |o| ==> IsLetter(s[i].text) && IsNumber(o[i].text)
    ensures |r| == Min(|s|, |o|)
    ensures forall i :: 0 <= i < |r| ==> r[i] == StepValue(s[i].text) + 12 * NumberOf(o[i].text)
  {
    if s == [] || o == [] then []
    else [StepValue(s[0].text) + 12 * NumberOf(o[0].text)] + PitchList(s[1..], o[1..])
  }

  /** The positional middle of a list as the source takes it, without
      sorting: the middle entry of an odd-length list, the truncated mean of
      the two central entries of an even-length one. */
  function Middle(xs: seq<int>): int
    requires |xs| > 0
  {
    if |xs| % 2 == 0 then TruncDiv(xs[|xs| / 2] + xs[|xs| / 2 - 1], 2) else xs[|xs| / 2]
  }

  /** The beat's pitch list. */
  function Pitches(beat: Elem): seq<int>
    requires PitchesReadable(beat)
  {
    PitchList(Steps(beat), Octaves(beat))
  }

  /** The pitch centre `pitchMedian` computes: 1 without any step or octave,
      otherwise the positional middle of the unsorted pitch list. */
  function PitchCenter(beat: Elem): int
    requires PitchesReadable(beat)
  {
    var s, o := Steps(beat), Octaves(beat);
    if s == [] && o == [] then 1 else Middle(Pitches(beat))
  }

  /** `pitchMedian`: builds the pitch list in a loop, then takes its middle. */
  method PitchMedian(beat: Elem) returns (m: int)
    requires PitchesReadable(beat)
    ensures m == PitchCenter(beat)
  {
    var s, o := Steps(beat), Octaves(beat);
    if s == [] && o == [] {
      return 1;
    }
    ghost var pitches := PitchList(s, o);
    var notelist: seq<int> := [];
    var i := 0;
    while i < |s| && i < |o|
      invariant 0 <= i <= |s| && i <= |o| && i <= |pitches|
      invariant notelist == pitches[..i]
    {
      TakeSnoc(pitches, i);
      notelist := notelist + [StepValue(s[i].text) + 12 * NumberOf(o[i].text)];
      i := i + 1;
    }
    assert i == |pitches|;
    if |notelist| % 2 == 0 {
      var one := notelist[|notelist| / 2];
      var two := notelist[|notelist| / 2 - 1];
      m := TruncDiv(one + two, 2);
    } else {
      m := notelist[|notelist| / 2];
    }
  }

  lemma TruncMeanBetween(a: int, b: int)
    requires a <= b
    ensures a <= TruncDiv(a + b, 2) <= b
    ensures a <= TruncDiv(b + a, 2) <= b
  {
  }

  /** The middle lies between two entries of the list. */
  lemma MiddleWithin(l: seq<int>)
    requires |l| > 0
    ensures exists i, j :: 0 <= i < |l| && 0 <= j < |l| && l[i] <= Middle(l) <= l[j]
  {
    var n := |l|;
    if n % 2 == 0 {
      var a, b := l[n / 2 - 1], l[n / 2];
      if a <= b {
        TruncMeanBetween(a, b);
        assert l[n / 2 - 1] <= Middle(l) <= l[n / 2];
      } else {
        TruncMeanBetween(b, a);
        assert l[n / 2] <= Middle(l) <= l[n / 2 - 1];
      }
    } else {
      assert l[n / 2] <= Middle(l) <= l[n / 2];
    }
  }

  /** The pitch centre lies between the smallest and the largest pitch
      value of the beat. */
  lemma PitchCenterWithinValues(beat: Elem)
    requires PitchesReadable(beat) && Steps(beat) != []
    ensures exists i, j ::
      0 <= i < |Pitches(beat)| && 0 <= j < |Pitches(beat)| && Pitches(beat)[i] <= PitchCenter(beat) <= Pitches(beat)[j]
  {
    var l := Pitches(beat);
    assert PitchCenter(beat) == Middle(l);
    MiddleWithin(l);
    var i, j :| 0 <= i < |l| && 0 <= j < |l| && l[i] <= Middle(l) <= l[j];
    assert l[i] <= PitchCenter(beat) <= l[j];
  }

  predicate Sorted(xs: seq<int>)
  {
    forall i, j :: 0 <= i < j < |xs| ==> xs[i] <= xs[j]
  }

  /** On a sorted list the middle splits it: the lower half lies at or below
      it and the upper half at or above it. */
  lemma MiddleSplitsSorted(l: seq<int>)
    requires |l| > 0 && Sorted(l)
    ensures forall i :: 0 <= i < |l| ==> (i < |l| / 2 ==> l[i] <= Middle(l)) && (i >= |l| / 2 ==> Middle(l) <= l[i])
  {
    var n, c := |l|, Middle(l);
    var lower, upper := l[(n - 1) / 2], l[n / 2];
    if n % 2 == 0 {
      TruncMeanBetween(l[n / 2 - 1], l[n / 2]);
    }
    assert lower <= c <= upper;
    forall i | 0 <= i < n
      ensures (i < n / 2 ==> l[i] <= c) && (i >= n / 2 ==> c <= l[i])
    {
      if i < n / 2 {
        assert i <= (n - 1) / 2;
        assert l[i] <= lower;
      } else {
        assert upper <= l[i];
      }
    }
  }

  /** On a beat whose pitches already come in ascending order the pitch
      centre is a median of them. */
  lemma PitchCenterIsMedianWhenSorted(beat: Elem)
    requires PitchesReadable(beat) && Steps(beat) != []
    requires Sorted(Pitches(beat))
    ensures forall i :: 0 <= i < |Pitches(beat)| ==>
      (i < |Pitches(beat)| / 2 ==> Pitches(beat)[i] <= PitchCenter(beat))
      && (i >= |Pitches(beat)| / 2 ==> PitchCenter(beat) <= Pitches(beat)[i])
  {
    var l := Pitches(beat);
    assert PitchCenter(beat) == Middle(l);
    MiddleSplitsSorted(l);
  }

  /** The pitch centre of an unsorted beat need not be its median: with
      steps C, A, B in octave 4 the pitch list is [51, 49, 50], whose median
      is 50, and the middle entry 49 is returned. */
  lemma PitchCenterOfUnsortedList()
    ensures Middle([51, 49, 50]) == 49
    ensures PitchList([Leaf("step", "C"), Leaf("step", "A"), Leaf("step", "B")],
                      [Leaf("octave", "4"), Leaf("octave", "4"), Leaf("octave", "4")]) == [51, 49, 50]
  {
    var s := [Leaf("step", "C"), Leaf("step", "A"), Leaf("step", "B")];
    var o := [Leaf("octave", "4"), Leaf("octave", "4"), Leaf("octave", "4")];
    assert ParseInt("4") == Some(4);
    var l := PitchList(s, o);
    assert l[0] == 51 && l[1] == 49 && l[2] == 50;
  }

  function Leaf(tag: string, text: string): Elem
  {
    Elem(tag, Some(text), None, map[], [])
  }

  /** When `lengthAvg` returns instead of raising: every duration is an
      integer. */
  predicate DurationsReadable(beat: Elem)
  {
    forall d :: d in Durations(beat) ==> IsNumber(d.text)
  }

  function SumOf(ds: seq<Elem>): int
    requires forall d :: d in ds ==> IsNumber(d.text)
  {
    if ds == [] then 0 else SumOf(ds[..|ds| - 1]) + NumberOf(ds[|ds| - 1].text)
  }

  /** The average length `lengthAvg` computes: -1 without durations,
      otherwise the mean of the durations truncated toward zero. */
  function AverageLength(beat: Elem): int
    requires DurationsReadable(beat)
  {
    var ds := Durations(beat);
    if ds == [] then -1 else TruncDiv(SumOf(ds), |ds|)
  }

  /** `lengthAvg`: sums the durations in a loop. */
  method LengthAvg(beat: Elem) returns (avg: int)
    requires DurationsReadable(beat)
    ensures avg == AverageLength(beat)
  {
    var notelength := Durations(beat);
    if notelength == [] {
      return -1;
    }
    var totallength := 0;
    var i := 0;
    while i < |notelength|
      invariant 0 <= i <= |notelength|
      invariant totallength == SumOf(notelength[..i])
    {
      assert notelength[..i + 1][..i] == notelength[..i];
      totallength := totallength + NumberOf(notelength[i].text);
      i := i + 1;
    }
    assert notelength[..i] == notelength;
    avg := TruncDiv(totallength, |notelength|);
  }

  lemma {:induction false} SumBounds(ds: seq<Elem>, lo: int, hi: int)
    requires forall d :: d in ds ==> IsNumber(d.text) && lo <= NumberOf(d.text) <= hi
    ensures lo * |ds| <= SumOf(ds) <= hi * |ds|
  {
    if ds != [] {
      var n := |ds|;
      SumBounds(ds[..n - 1], lo, hi);
      assert ds[n - 1] in ds;
      MulSucc(lo, n);
      MulSucc(hi, n);
    }
  }

  /** The position of a shortest duration. */
  function ShortestAt(ds: seq<Elem>): (i: nat)
    requires ds != [] && forall d :: d in ds ==> IsNumber(d.text)
    ensures i < |ds| && forall d :: d in ds ==> NumberOf(ds[i].text) <= NumberOf(d.text)
  {
    if |ds| == 1 then 0
    else
      var init := ds[..|ds| - 1];
      assert forall d :: d in ds ==> d in init || d == ds[|ds| - 1];
      var i := ShortestAt(init);
      if NumberOf(ds[|ds| - 1].text) < NumberOf(init[i].text) then |ds| - 1 else i
  }

  /** The position of a longest duration. */
  function LongestAt(ds: seq<Elem>): (i: nat)
    requires ds != [] && forall d :: d in ds ==> IsNumber(d.text)
    ensures i < |ds| && forall d :: d in ds ==> NumberOf(d.text) <= NumberOf(ds[i].text)
  {
    if |ds| == 1 then 0
    else
      var init := ds[..|ds| - 1];
      assert forall d :: d in ds ==> d in init || d == ds[|ds| - 1];
      var i := LongestAt(init);
      if NumberOf(ds[|ds| - 1].text) > NumberOf(init[i].text) then |ds| - 1 else i
  }

  /** A truncated quotient of a sum of `n` values lies between the bounds
      of those values. */
  lemma TruncDivBetween(s: int, n: int, lo: int, hi: int)
    requires n > 0 && lo * n <= s <= hi * n
    ensures lo <= TruncDiv(s, n) <= hi
  {
    var q := TruncDiv(s, n);
    if s >= 0 {
      MulCancelLe(q, hi, n);
      MulCancelLt(lo, q + 1, n);
    } else {
      MulCancelLe(lo, q, n);
      MulCancelLt(q - 1, hi, n);
    }
  }

  /** With at least one duration the average lies between the shortest and
      the longest duration. */
  lemma AverageLengthWithinDurations(beat: Elem)
    requires DurationsReadable(beat) && Durations(beat) != []
    ensures var ds := Durations(beat);
      exists i, j :: 0 <= i < |ds| && 0 <= j < |ds|
        && NumberOf(ds[i].text) <= AverageLength(beat) <= NumberOf(ds[j].text)
  {
    var ds := Durations(beat);
    var i, j := ShortestAt(ds), LongestAt(ds);
    SumBounds(ds, NumberOf(ds[i].text), NumberOf(ds[j].text));
    TruncDivBetween(SumOf(ds), |ds|, NumberOf(ds[i].text), NumberOf(ds[j].text));
  }

  lemma {:induction false} SumNonNegative(ds: seq<Elem>)
    requires forall d :: d in ds ==> IsNumber(d.text) && NumberOf(d.text) >= 0
    ensures SumOf(ds) >= 0
  {
    if ds != [] {
      SumNonNegative(ds[..|ds| - 1]);
      assert ds[|ds| - 1] in ds;
    }
  }

  /** Durations are never negative in a score, and then -1 is a true
      sentinel: it is returned exactly when there is no duration at all. */
  lemma AverageLengthSentinel(beat: Elem)
    requires DurationsReadable(beat)
    requires forall d :: d in Durations(beat) ==> NumberOf(d.text) >= 0
    ensures AverageLength(beat) == -1 <==> Durations(beat) == []
  {
    var ds := Durations(beat);
    if ds != [] {
      SumNonNegative(ds);
    }
  }

  /** `countNotes`: the number of `note` children. */
  function CountNotes(beat: Elem): (n: nat)
    ensures n <= |beat.children|
    ensures n == 0 <==> !HasChild(beat, "note")
  {
    TaggedCount(beat.children, "note");
    |Notes(beat)|
  }

  lemma {:induction false} TaggedCount(cs: seq<Elem>, tag: string)
    ensures |FindAllIn(cs, [tag])| <= |cs|
    ensures FindAllIn(cs, [tag]) == [] <==> forall i :: 0 <= i < |cs| ==> cs[i].tag != tag
  {
    if cs != [] {
      TaggedCount(cs[1..], tag);
      if cs[0].tag != tag {
        forall i | 0 <= i < |cs| ensures cs[i].tag != tag <== forall k :: 0 <= k < |cs[1..]| ==> cs[1..][k].tag != tag {
          if i > 0 { assert cs[i] == cs[1..][i - 1]; }
        }
      }
    }
  }

  /** The feature vector (pitch centre, average length, note count). */
  datatype FeatureVector = FeatureVector(pitch: int, length: int, count: int)

  predicate Measurable(beat: Elem) { PitchesReadable(beat) && DurationsReadable(beat) }

  /** The features `getBeat` computes for its seed and `checkFitness` for
      every candidate. */
  function Describe(beat: Elem): FeatureVector
    requires Measurable(beat)
  {
    FeatureVector(PitchCenter(beat), AverageLength(beat), CountNotes(beat))
  }

  /** `checkFitness` before its square root: the squared Euclidean distance
      between the target vector and the beat's features. */
  function SquaredDistance(target: FeatureVector, beat: Elem): nat
    requires Measurable(beat)
  {
    Distance2(target, Describe(beat))
  }

  /** The squared Euclidean distance of two feature vectors. */
  function Distance2(u: FeatureVector, v: FeatureVector): nat
  {
    Square(u.pitch - v.pitch) + Square(u.length - v.length) + Square(v.count - u.count)
  }

  function Square(a: int): nat
  {
    SquareZero(a);
    a * a
  }

  /** Two feature vectors are at distance 0 exactly when they are equal. */
  lemma Distance2Zero(u: FeatureVector, v: FeatureVector)
    ensures Distance2(u, v) == 0 <==> u == v
  {
    SquareZero(u.pitch - v.pitch);
    SquareZero(u.length - v.length);
    SquareZero(v.count - u.count);
  }

  /** The distance is 0 exactly for a beat whose features are the target. */
  lemma SquaredDistanceZero(target: FeatureVector, beat: Elem)
    requires Measurable(beat)
    ensures SquaredDistance(target, beat) == 0 <==> Describe(beat) == target
  {
    Distance2Zero(target, Describe(beat));
  }

  // ---------------------------------------------------------------------
  // Chord comparison

  /** The characters `str.split()` splits on. */
  predicate IsSpace(c: char)
  {
    var n := c as int;
    n == 0x20 || 0x09 <= n <= 0x0D || 0x1C <= n <= 0x1F || n == 0x85 || n == 0xA0 || n == 0x1680
    || 0x2000 <= n <= 0x200A || n == 0x2028 || n == 0x2029 || n == 0x202F || n == 0x205F || n == 0x3000
  }

  function LeadingSpace(s: string): (k: nat)
    ensures k <= |s|
    ensures forall i :: 0 <= i < k ==> IsSpace(s[i])
    ensures k < |s| ==> !IsSpace(s[k])
  {
    if s == [] || !IsSpace(s[0]) then 0 else 1 + LeadingSpace(s[1..])
  }

  function WordLength(s: string): (k: nat)
    ensures k <= |s|
    ensures forall i :: 0 <= i < k ==> !IsSpace(s[i])
    ensures k < |s| ==> IsSpace(s[k])
  {
    if s == [] || IsSpace(s[0]) then 0 else 1 + WordLength(s[1..])
  }

  /** `s.split()[0]`: the first maximal run of non-space characters; `None`
      where Python raises IndexError (the text is all space). */
  function FirstToken(s: string): (r: Option<string>)
    ensures r.None? <==> forall i :: 0 <= i < |s| ==> IsSpace(s[i])
    ensures r.Some? ==> |r.value| > 0 && forall i :: 0 <= i < |r.value| ==> !IsSpace(r.value[i])
    ensures r.Some? ==> var k := LeadingSpace(s);
      k + |r.value| <= |s| && s[k..k + |r.value|] == r.value
      && (k + |r.value| == |s| || IsSpace(s[k + |r.value|]))
  {
    var k := LeadingSpace(s);
    if k == |s| then None
    else
      var n := WordLength(s[k..]);
      assert n > 0;
      assert forall i :: 0 <= i < n ==> s[k..k + n][i] == s[k..][i];
      Some(s[k..k + n])
  }

  /** The first word of the first chord id among the notes, when there is a
      chord id with text and the text has a word. */
  function ChordToken(beat: Elem): Option<string>
  {
    match FindFirst(beat, ChordPath)
    case None => None
    case Some(c) =>
      match c.text
      case None => None
      case Some(t) => FirstToken(t)
  }

  /** `checkChord`: both beats name the same chord. Every way the source's
      `try` block can raise (no chord id, no text, no word) answers false. */
  function CheckChord(beat1: Elem, beat2: Elem): (same: bool)
    ensures same <==> exists w :: ChordToken(beat1) == Some(w) && ChordToken(beat2) == Some(w)
  {
    ChordToken(beat1).Some? && ChordToken(beat2).Some? && ChordToken(beat1) == ChordToken(beat2)
  }

  /** The chord check is symmetric, and a beat matches itself exactly when
      it has a chord word. */
  lemma CheckChordSymmetric(beat1: Elem, beat2: Elem)
    ensures CheckChord(beat1, beat2) == CheckChord(beat2, beat1)
    ensures CheckChord(beat1, beat1) <==> ChordToken(beat1).Some?
  {
  }

  // ---------------------------------------------------------------------
  // Notes the search can measure and mutate

  /** A pitched note as a score writes it: its pitch has as many steps as
      octaves and at least one, every step a letter A to G, every octave
      and every duration an integer. Children other than notes are
      unconstrained. */
  predicate WellFormedNote(c: Elem)
  {
    c.tag == "note" ==>
      var s, o, d := FindAll(c, PitchStep), FindAll(c, PitchOctave), FindAll(c, NoteDuration);
      |s| == |o| >= 1
      && (forall x :: x in s ==> IsStepLetter(x.text))
      && (forall x :: x in o ==> IsNumber(x.text))
      && (forall x :: x in d ==> IsNumber(x.text))
  }

  predicate WellFormedBeat(beat: Elem)
  {
    forall c :: c in beat.children ==> WellFormedNote(c)
  }

  lemma {:induction false} WellFormedPaths(cs: seq<Elem>)
    requires forall c :: c in cs ==> WellFormedNote(c)
    ensures |FindAllIn(cs, StepPath)| == |FindAllIn(cs, OctavePath)|
    ensures |FindAllIn(cs, StepPath)| == 0 <==> FindAllIn(cs, NotePath) == []
  {
    if cs != [] {
      assert StepPath[1..] == PitchStep && OctavePath[1..] == PitchOctave && NotePath[1..] == [];
      assert cs[0] in cs;
      WellFormedPaths(cs[1..]);
    }
  }

  /** The search keeps only well-formed notes, and on those every feature
      is defined. */
  lemma WellFormedMeasurable(beat: Elem)
    requires WellFormedBeat(beat)
    ensures Measurable(beat)
    ensures forall s :: s in Steps(beat) ==> IsStepLetter(s.text)
    ensures |Steps(beat)| == |Octaves(beat)|
  {
    var cs := beat.children;
    WellFormedPaths(cs);
    forall s | s in Steps(beat) ensures IsStepLetter(s.text) {
      FindAllInSource(cs, StepPath, s);
    }
    forall o | o in Octaves(beat) ensures IsNumber(o.text) {
      FindAllInSource(cs, OctavePath, o);
    }
    forall d | d in Durations(beat) ensures IsNumber(d.text) {
      FindAllInSource(cs, DurationPath, d);
    }
    var s, o := Steps(beat), Octaves(beat);
    forall i | 0 <= i < |s| && i < |o| ensures IsLetter(s[i].text) && IsNumber(o[i].text) {
      assert s[i] in s && o[i] in o;
    }
  }
}
