/** The two genetic operators: `mutate`, which moves the step letter of one
    note two places round the cycle A B C D E F G, and `crossover`, which
    splits two parent beats into treble and bass parts and recombines cut
    pieces of them into two child beats. The random draws each operator
    makes arrive as explicit parameters. */
module Operators {
  import opened Basics
  import opened Xml
  import opened Features

  // ---------------------------------------------------------------------
  // Shifting a step letter

  /** Code points that are characters (Unicode scalar values). */
  predicate IsScalar(n: int) { 0 <= n < 0xD800 || 0xE000 <= n < 0x11_0000 }

  /** When the shift in direction `up` yields a character. */
  predicate CanShift(c: char, up: bool)
  {
    if up then c == 'F' || c == 'G' || IsScalar(c as int + 2)
    else c == 'A' || c == 'B' || IsScalar(c as int - 2)
  }

  /** The "plus" rewrite: F becomes A, G becomes B, any other character
      moves two code points up. */
  function ShiftUp(c: char): char
    requires CanShift(c, true)
  {
    if c == 'F' then 'A' else if c == 'G' then 'B' else (c as int + 2) as char
  }

  /** The "minus" rewrite: A becomes F, B becomes G, any other character
      moves two code points down. */
  function ShiftDown(c: char): char
    requires CanShift(c, false)
  {
    if c == 'A' then 'F' else if c == 'B' then 'G' else (c as int - 2) as char
  }

  function Shift(c: char, up: bool): char
    requires CanShift(c, up)
  {
    if up then ShiftUp(c) else ShiftDown(c)
  }

  predicate IsStep(c: char) { 'A' <= c <= 'G' }

  /** The letter at place `i` of the cycle A B C D E F G. */
  function Letter(i: nat): (c: char)
    requires i < 7
    ensures IsStep(c)
  {
    ('A' as int + i) as char
  }

  /** On the seven step letters the two shifts are rotations of the cycle by
      two places forward and back, they stay on the cycle, and each undoes
      the other. */
  lemma ShiftRotates(c: char)
    requires IsStep(c)
    ensures CanShift(c, true) && CanShift(c, false)
    ensures ShiftUp(c) == Letter((c as int - 'A' as int + 2) % 7)
    ensures ShiftDown(c) == Letter((c as int - 'A' as int + 5) % 7)
    ensures CanShift(ShiftUp(c), false) && ShiftDown(ShiftUp(c)) == c
    ensures CanShift(ShiftDown(c), true) && ShiftUp(ShiftDown(c)) == c
  {
  }

  /** Off the cycle the shifts need not undo each other: "?" goes up to "A",
      and "A" goes down to "F". */
  lemma ShiftOffTheCycle()
    ensures ShiftUp('?') == 'A' && ShiftDown('A') == 'F'
  {
  }

  // ---------------------------------------------------------------------
  // Mutation

  /** The draws of one `mutate` call: the gate `random.random()`, the raw
      index `random.choice` reduces over the notes, and the direction. */
  datatype MutDraw = MutDraw(gate: real, note: nat, up: bool)

  /** Whether the mutation rewrites anything: the gate opens, the beat has
      children and among them notes. */
  predicate Fires(beat: Elem, rate: real, draw: MutDraw)
  {
    draw.gate < rate && |beat.children| > 0 && Notes(beat) != []
  }

  /** Where among the beat's children the note `random.choice` picks sits. */
  function ChosenAt(beat: Elem, draw: MutDraw): (p: nat)
    requires Notes(beat) != []
    ensures p < |beat.children| && beat.children[p].tag == "note"
    ensures Notes(beat)[draw.note % |Notes(beat)|] == beat.children[p]
  {
    CountTaggedFindAll(beat.children, "note");
    NthTaggedFound(beat.children, "note", draw.note % |Notes(beat)|);
    NthTagged(beat.children, "note", draw.note % |Notes(beat)|)
  }

  /** The element `munote.find("pitch/step")` yields. */
  function ChosenStep(beat: Elem, draw: MutDraw): Option<Elem>
    requires Notes(beat) != []
  {
    FindFirst(beat.children[ChosenAt(beat, draw)], PitchStep)
  }

  /** When `mutate` returns instead of raising: if it fires, the chosen note
      has a step whose text is one character that the shift maps to a
      character. */
  predicate MutationDefined(beat: Elem, rate: real, draw: MutDraw)
  {
    Fires(beat, rate, draw) ==>
      var s := ChosenStep(beat, draw);
      s.Some? && IsLetter(s.value.text) && CanShift(s.value.text.value[0], draw.up)
  }

  /** The step text the mutation writes. */
  function NewStep(beat: Elem, rate: real, draw: MutDraw): string
    requires MutationDefined(beat, rate, draw) && Fires(beat, rate, draw)
  {
    [Shift(ChosenStep(beat, draw).value.text.value[0], draw.up)]
  }

  /** `mutate`: the beat with the step of the chosen note rewritten, or the
      beat itself when the mutation does not fire. */
  function Mutate(beat: Elem, rate: real, draw: MutDraw): (r: Elem)
    requires MutationDefined(beat, rate, draw)
    ensures !Fires(beat, rate, draw) ==> r == beat
    ensures r.tag == beat.tag && r.text == beat.text && r.tail == beat.tail && r.attrib == beat.attrib
    ensures |r.children| == |beat.children|
  {
    if !Fires(beat, rate, draw) then beat
    else
      var p := ChosenAt(beat, draw);
      beat.(children := beat.children[p := UpdateFirst(beat.children[p], PitchStep, Some(NewStep(beat, rate, draw)))])
  }

  /** A mutation that fires changes one child, the chosen note, and in it
      only its first pitch that holds a step, where only the text of the
      first step changes, to the shifted letter; the note's octaves and
      durations stay as they were. */
  lemma MutateOneStep(beat: Elem, rate: real, draw: MutDraw)
    requires MutationDefined(beat, rate, draw) && Fires(beat, rate, draw)
    ensures var r, p := Mutate(beat, rate, draw), ChosenAt(beat, draw);
      && (forall i :: 0 <= i < |r.children| && i != p ==> r.children[i] == beat.children[i])
      && r.children[p].tag == "note"
      && FindAll(r.children[p], PitchStep) == ReplaceHeadText(FindAll(beat.children[p], PitchStep), Some(NewStep(beat, rate, draw)))
      && FindAll(r.children[p], PitchOctave) == FindAll(beat.children[p], PitchOctave)
      && FindAll(r.children[p], NoteDuration) == FindAll(beat.children[p], NoteDuration)
    ensures var r, n := Mutate(beat, rate, draw), beat.children[ChosenAt(beat, draw)];
      var m, q := r.children[ChosenAt(beat, draw)], FirstReaching(n.children, PitchStep);
      && m.tag == n.tag && m.text == n.text && m.tail == n.tail && m.attrib == n.attrib
      && |m.children| == |n.children|
      && (forall k :: 0 <= k < |n.children| && k != q ==> m.children[k] == n.children[k])
      && (q < |n.children| ==> m.children[q] == UpdateFirst(n.children[q], PitchStep[1..], Some(NewStep(beat, rate, draw))))
  {
    var n, t := beat.children[ChosenAt(beat, draw)], Some(NewStep(beat, rate, draw));
    UpdateFirstInTouchesOne(n.children, PitchStep, t);
    UpdateFirstReaches(n, PitchStep, t);
    UpdateFirstElsewhere(n, PitchStep, PitchOctave, 1, t);
    UpdateFirstElsewhere(n, PitchStep, NoteDuration, 0, t);
  }

  /** Mutation leaves the rhythm alone: the durations, hence the average
      length, and the number of notes and of steps are those of the beat. */
  lemma MutateKeepsRhythm(beat: Elem, rate: real, draw: MutDraw)
    requires MutationDefined(beat, rate, draw)
    ensures var r := Mutate(beat, rate, draw);
      && Durations(r) == Durations(beat)
      && |Notes(r)| == |Notes(beat)| && CountNotes(r) == CountNotes(beat)
      && |Steps(r)| == |Steps(beat)|
  {
    if Fires(beat, rate, draw) {
      var r, p := Mutate(beat, rate, draw), ChosenAt(beat, draw);
      var cs, x := beat.children, r.children[p];
      MutateOneStep(beat, rate, draw);
      assert r.children == cs[p := x];
      assert DurationPath[1..] == NoteDuration && StepPath[1..] == PitchStep;
      FindAllInReplaceSame(cs, p, x, DurationPath);
      SameTagsSameCount(cs, r.children, "note");
      FindAllInReplace(cs, p, x, StepPath);
      assert |FindAllIn([x], StepPath)| == |FindAllIn([cs[p]], StepPath)|;
    }
  }

  /** Every note of a well-formed beat has a step letter the shifts accept,
      so mutation is defined on it, and the mutated beat is well-formed
      again. */
  lemma MutateWellFormed(beat: Elem, rate: real, draw: MutDraw)
    requires WellFormedBeat(beat)
    ensures MutationDefined(beat, rate, draw)
    ensures WellFormedBeat(Mutate(beat, rate, draw))
  {
    if Fires(beat, rate, draw) {
      var p := ChosenAt(beat, draw);
      var n := beat.children[p];
      assert n in beat.children;
      var s := FindAll(n, PitchStep);
      assert s[0] in s;
      ShiftRotates(s[0].text.value[0]);
      var r := Mutate(beat, rate, draw);
      MutateOneStep(beat, rate, draw);
      StepLettersReplaced(s, Some(NewStep(beat, rate, draw)));
      assert WellFormedNote(r.children[p]);
      OneChildReplaced(beat.children, r.children, p);
    }
  }

  /** Replacing the text of the first step by a step letter keeps every
      step a letter. */
  lemma StepLettersReplaced(s: seq<Elem>, t: Option<string>)
    requires IsStepLetter(t) && forall x :: x in s ==> IsStepLetter(x.text)
    ensures forall x :: x in ReplaceHeadText(s, t) ==> IsStepLetter(x.text)
  {
    if s != [] {
      assert forall x :: x in s[1..] ==> x in s;
    }
  }

  /** Children that differ from well-formed ones at one well-formed place
      are all well-formed. */
  lemma OneChildReplaced(cs: seq<Elem>, ds: seq<Elem>, p: nat)
    requires |cs| == |ds| && p < |ds| && WellFormedNote(ds[p])
    requires forall c :: c in cs ==> WellFormedNote(c)
    requires forall i :: 0 <= i < |ds| && i != p ==> ds[i] == cs[i]
    ensures forall c :: c in ds ==> WellFormedNote(c)
  {
    forall c | c in ds ensures WellFormedNote(c) {
      var i :| 0 <= i < |ds| && ds[i] == c;
      if i != p {
        assert c == cs[i];
      }
    }
  }

  /** A mutation in the other direction with the same note undoes it. */
  lemma MutateInverse(beat: Elem, rate: real, draw: MutDraw)
    requires WellFormedBeat(beat)
    ensures MutationDefined(beat, rate, draw)
    ensures var r := Mutate(beat, rate, draw);
      && WellFormedBeat(r) && MutationDefined(r, rate, draw.(up := !draw.up))
      && Mutate(r, rate, draw.(up := !draw.up)) == beat
  {
    MutateWellFormed(beat, rate, draw);
    var r := Mutate(beat, rate, draw);
    if Fires(beat, rate, draw) {
      var back := draw.(up := !draw.up);
      var p := ChosenAt(beat, draw);
      var n := beat.children[p];
      MutateOneStep(beat, rate, draw);
      MutateKeepsRhythm(beat, rate, draw);
      assert Fires(r, rate, back);
      CountTaggedFindAll(beat.children, "note");
      SameTagsSamePlaces(beat.children, r.children, "note", draw.note % |Notes(beat)|);
      assert ChosenAt(r, back) == p;
      assert n in beat.children;
      var old_text := FindAll(n, PitchStep)[0].text;
      assert FindAll(n, PitchStep)[0] in FindAll(n, PitchStep);
      assert IsStepLetter(old_text);
      var c := old_text.value[0];
      assert old_text.value == [c];
      ShiftRotates(c);
      MutateWellFormed(r, rate, back);
      assert NewStep(r, rate, back) == [c];
      assert old_text == Some([c]);
      UpdateFirstRestore(n, PitchStep, Some(NewStep(beat, rate, draw)));
      assert Mutate(r, rate, back).children == beat.children;
    }
  }

  // ---------------------------------------------------------------------
  // Splitting a beat into treble and bass

  predicate IsBackup(e: Elem) { e.tag == "backup" }

  /** Position of the first backup child, or the length when there is none. */
  function FirstBackup(cs: seq<Elem>): (f: nat)
    ensures f <= |cs|
  {
    if cs == [] then 0 else if IsBackup(cs[0]) then 0 else 1 + FirstBackup(cs[1..])
  }

  lemma {:induction false} FirstBackupSpec(cs: seq<Elem>)
    ensures forall j :: 0 <= j < FirstBackup(cs) ==> !IsBackup(cs[j])
    ensures FirstBackup(cs) < |cs| ==> IsBackup(cs[FirstBackup(cs)])
  {
    if cs != [] && !IsBackup(cs[0]) {
      FirstBackupSpec(cs[1..]);
    }
  }

  /** The children that are not backups, in order. */
  function NonBackups(cs: seq<Elem>): (r: seq<Elem>)
    ensures |r| <= |cs|
  {
    if cs == [] then []
    else NonBackups(cs[..|cs| - 1]) + (if IsBackup(cs[|cs| - 1]) then [] else [cs[|cs| - 1]])
  }

  /** What the filter keeps are children, none of them a backup. */
  lemma {:induction false} NonBackupsMember(cs: seq<Elem>, x: Elem)
    requires x in NonBackups(cs)
    ensures x in cs && !IsBackup(x)
  {
    var init := cs[..|cs| - 1];
    if x in NonBackups(init) {
      NonBackupsMember(init, x);
      assert cs == init + [cs[|cs| - 1]];
    }
  }

  /** The pair of lists `[treble, bass]` the splitting loops build: the
      children before the first backup, then the children after it that are
      not backups themselves. */
  function PartsOf(cs: seq<Elem>): (parts: seq<seq<Elem>>)
    ensures |parts| == 2
  {
    var f := FirstBackup(cs);
    if f < |cs| then [cs[..f], NonBackups(cs[f + 1..])] else [cs, []]
  }

  /** Both parts hold children of the beat and no backup. */
  lemma PartsOfMembers(cs: seq<Elem>, x: Elem)
    requires x in PartsOf(cs)[0] || x in PartsOf(cs)[1]
    ensures x in cs && !IsBackup(x)
  {
    FirstBackupSpec(cs);
    var f := FirstBackup(cs);
    if f < |cs| && x in NonBackups(cs[f + 1..]) {
      NonBackupsMember(cs[f + 1..], x);
    }
  }

  lemma {:induction false} NonBackupsAppend(xs: seq<Elem>, ys: seq<Elem>)
    ensures NonBackups(xs + ys) == NonBackups(xs) + NonBackups(ys)
    decreases |ys|
  {
    if ys == [] {
      assert xs + ys == xs;
    } else {
      var init := ys[..|ys| - 1];
      assert (xs + ys)[..|xs + ys| - 1] == xs + init;
      NonBackupsAppend(xs, init);
    }
  }

  lemma {:induction false} NonBackupsNone(cs: seq<Elem>)
    requires forall x :: x in cs ==> !IsBackup(x)
    ensures NonBackups(cs) == cs
  {
    if cs != [] {
      var init := cs[..|cs| - 1];
      assert cs == init + [cs[|cs| - 1]];
      assert forall x :: x in init ==> x in cs;
      NonBackupsNone(init);
    }
  }

  /** A sequence is its prefix, the element at `f` and the rest. */
  lemma AroundAt(cs: seq<Elem>, f: nat)
    requires f < |cs|
    ensures cs == cs[..f] + [cs[f]] + cs[f + 1..]
  {
  }

  /** Splitting loses the backups and nothing else: treble then bass is the
      list of non-backup children in order. */
  lemma PartsOfDropsBackups(cs: seq<Elem>)
    ensures PartsOf(cs)[0] + PartsOf(cs)[1] == NonBackups(cs)
  {
    var f := FirstBackup(cs);
    FirstBackupSpec(cs);
    if f < |cs| {
      AroundAt(cs, f);
      DropFirstBackup(cs[..f], cs[f], cs[f + 1..]);
    } else {
      assert cs[..f] == cs;
      NonBackupsNone(cs);
    }
  }

  /** Filtering notes, one backup and the rest keeps the notes and the
      filtered rest. */
  lemma DropFirstBackup(t: seq<Elem>, k: Elem, rest: seq<Elem>)
    requires forall j :: 0 <= j < |t| ==> !IsBackup(t[j])
    requires IsBackup(k)
    ensures NonBackups(t + [k] + rest) == t + NonBackups(rest)
  {
    calc {
      NonBackups(t + [k] + rest);
    == { NonBackupsAppend(t + [k], rest); }
      NonBackups(t + [k]) + NonBackups(rest);
    == { NonBackupsAppend(t, [k]); NonBackupsSingle(k); }
      NonBackups(t) + NonBackups(rest);
    == { assert forall x :: x in t ==> !IsBackup(x); NonBackupsNone(t); }
      t + NonBackups(rest);
    }
  }

  lemma NonBackupsSingle(k: Elem)
    requires IsBackup(k)
    ensures NonBackups([k]) == []
  {
    assert [k][..0] == [];
  }

  lemma {:induction false} FirstBackupAfter(t: seq<Elem>, k: Elem, b: seq<Elem>)
    requires forall x :: x in t ==> !IsBackup(x)
    requires IsBackup(k)
    ensures FirstBackup(t + [k] + b) == |t|
  {
    if t != [] {
      assert (t + [k] + b)[1..] == t[1..] + [k] + b;
      FirstBackupAfter(t[1..], k, b);
    }
  }

  /** A single backup between two runs of notes splits them back apart, and
      filtering backups out joins them. */
  lemma SplitAtBackup(t: seq<Elem>, k: Elem, b: seq<Elem>)
    requires forall x :: x in t ==> !IsBackup(x)
    requires forall x :: x in b ==> !IsBackup(x)
    requires IsBackup(k)
    ensures PartsOf(t + [k] + b) == [t, b]
    ensures NonBackups(t + [k] + b) == t + b
  {
    var cs := t + [k] + b;
    FirstBackupAfter(t, k, b);
    assert cs[..|t|] == t;
    assert cs[|t| + 1..] == b;
    NonBackupsNone(b);
    NonBackupsNone(t);
    PartsOfDropsBackups(cs);
  }

  /** ... and it is the only backup there. */
  lemma OnlyBackupAt(t: seq<Elem>, k: Elem, b: seq<Elem>, i: nat)
    requires forall x :: x in t ==> !IsBackup(x)
    requires forall x :: x in b ==> !IsBackup(x)
    requires IsBackup(k) && i < |t| + 1 + |b|
    ensures IsBackup((t + [k] + b)[i]) <==> i == |t|
  {
    var cs := t + [k] + b;
    if i < |t| {
      assert cs[i] == t[i] && t[i] in t;
    } else if i > |t| {
      assert cs[i] == b[i - |t| - 1] && b[i - |t| - 1] in b;
    }
  }

  /** The loop of `crossover` that files the children of a parent beat under
      `[treble, bass]`, switching to bass at the first backup. */
  method SplitParts(cs: seq<Elem>) returns (notes: seq<seq<Elem>>)
    ensures notes == PartsOf(cs)
  {
    notes := [[], []];
    var index := 0;
    ghost var f := FirstBackup(cs);
    FirstBackupSpec(cs);
    var i := 0;
    while i < |cs|
      invariant 0 <= i <= |cs|
      invariant |notes| == 2
      invariant i <= f ==> index == 0 && notes == [cs[..i], []]
      invariant i > f ==> index == 1 && notes == [cs[..f], NonBackups(cs[f + 1..i])]
    {
      if cs[i].tag == "backup" {
        index := 1;
      } else {
        notes := notes[index := notes[index] + [cs[i]]];
      }
      if i < f {
        assert cs[..i + 1] == cs[..i] + [cs[i]];
      } else if i == f {
        assert cs[f + 1..i + 1] == [];
        assert NonBackups(cs[f + 1..i + 1]) == [];
      } else {
        var seen := cs[f + 1..i + 1];
        assert seen[..|seen| - 1] == cs[f + 1..i];
        assert seen[|seen| - 1] == cs[i];
        assert NonBackups(seen) == NonBackups(cs[f + 1..i]) + (if IsBackup(cs[i]) then [] else [cs[i]]);
        assert notes[0] == cs[..f] && notes[1] == NonBackups(seen);
      }
      i := i + 1;
    }
    if f < |cs| {
      assert cs[f + 1..i] == cs[f + 1..];
    } else {
      assert cs[..i] == cs;
    }
  }

  // ---------------------------------------------------------------------
  // Recombination

  /** The draws of one `crossover` call: the gate `random.random()` and the
      raw values `random.randint` reduces to the treble and bass cut. */
  datatype CrossDraw = CrossDraw(gate: real, trebleCut: nat, bassCut: nat)

  /** `slicer` for one part: `randint(0, n)` with `n` the length of that
      part in the parent whose part is not longer. */
  function Cut(mn: seq<seq<Elem>>, dn: seq<seq<Elem>>, part: nat, raw: nat): (slicer: nat)
    requires |mn| == 2 && |dn| == 2 && part < 2
    ensures slicer <= |mn[part]| && slicer <= |dn[part]|
  {
    if |dn[part]| > |mn[part]| then Pick(raw, |mn[part]|) else Pick(raw, |dn[part]|)
  }

  /** The two pieces cut from one part: the first `slicer` elements of one
      parent followed by the other parent's elements from `slicer` up to
      the bound `len(parts) - 1`, the length of the outer `[treble, bass]`
      list less one, which is 1. */
  function Pieces(mn: seq<seq<Elem>>, dn: seq<seq<Elem>>, part: nat, raw: nat): (r: (seq<Elem>, seq<Elem>))
    requires |mn| == 2 && |dn| == 2 && part < 2
  {
    var slicer := Cut(mn, dn, part, raw);
    if |dn[part]| > |mn[part]| then
      (PySlice(mn[part], 0, slicer) + PySlice(dn[part], slicer, |dn| - 1),
       PySlice(dn[part], 0, slicer) + PySlice(mn[part], slicer, |mn| - 1))
    else
      (PySlice(dn[part], 0, slicer) + PySlice(mn[part], slicer, |mn| - 1),
       PySlice(mn[part], 0, slicer) + PySlice(dn[part], slicer, |dn| - 1))
  }

  /** Every element of a piece comes from that part of one of the parents. */
  lemma PiecesMembers(mn: seq<seq<Elem>>, dn: seq<seq<Elem>>, part: nat, raw: nat, x: Elem)
    requires |mn| == 2 && |dn| == 2 && part < 2
    requires x in Pieces(mn, dn, part, raw).0 || x in Pieces(mn, dn, part, raw).1
    ensures x in mn[part] || x in dn[part]
  {
  }

  /** The conditions under which `crossover` recombines: the gate opens,
      both parents have more than one child and a non-empty treble. */
  predicate Recombines(mammy: Elem, daddy: Elem, rate: real, draw: CrossDraw)
  {
    draw.gate < rate && |mammy.children| > 1 && |daddy.children| > 1
    && PartsOf(mammy.children)[0] != [] && PartsOf(daddy.children)[0] != []
  }

  /** What `crossover` returns, branch for branch: the parents when the gate
      stays shut, a parent is too short, a treble is empty, the (repeated)
      treble test fails, or a child comes out empty; otherwise two new
      beats, each a treble piece followed by a bass piece. */
  function CrossoverOf(mammy: Elem, daddy: Elem, rate: real, draw: CrossDraw): (r: (Elem, Elem))
  {
    if draw.gate < rate && |mammy.children| > 1 && |daddy.children| > 1 then
      var mn, dn := PartsOf(mammy.children), PartsOf(daddy.children);
      if |dn[0]| > 0 && |mn[0]| > 0 then
        var treble := Pieces(mn, dn, 0, draw.trebleCut);
        if |dn[0]| > 0 && |mn[0]| > 0 then
          var bass := Pieces(mn, dn, 1, draw.bassCut);
          var child1, child2 := NewElement("beat", treble.0 + bass.0), NewElement("beat", treble.1 + bass.1);
          if |child1.children| == 0 || |child2.children| == 0 then (mammy, daddy) else (child1, child2)
        else (mammy, daddy)
      else (mammy, daddy)
    else (mammy, daddy)
  }

  /** `crossover`: splits both parents with the loop and appends the pieces
      to two fresh beats. */
  method Crossover(mammybeat: Elem, daddybeat: Elem, rate: real, draw: CrossDraw) returns (o1: Elem, o2: Elem)
    ensures (o1, o2) == CrossoverOf(mammybeat, daddybeat, rate, draw)
  {
    if draw.gate < rate && |mammybeat.children| > 1 && |daddybeat.children| > 1 {
      var mammynotes := SplitParts(mammybeat.children);
      var daddynotes := SplitParts(daddybeat.children);
      var child1, child2 := NewElement("beat", []), NewElement("beat", []);
      if |daddynotes[0]| > 0 && |mammynotes[0]| > 0 {
        var treble := Pieces(mammynotes, daddynotes, 0, draw.trebleCut);
        child1 := child1.(children := child1.children + treble.0);
        child2 := child2.(children := child2.children + treble.1);
        assert child1.children == treble.0 && child2.children == treble.1;
      } else {
        return mammybeat, daddybeat;
      }
      if |daddynotes[0]| > 0 && |mammynotes[0]| > 0 {
        var bass := Pieces(mammynotes, daddynotes, 1, draw.bassCut);
        child1 := child1.(children := child1.children + bass.0);
        child2 := child2.(children := child2.children + bass.1);
      } else {
        return mammybeat, daddybeat;
      }
      if |child1.children| == 0 || |child2.children| == 0 {
        return mammybeat, daddybeat;
      }
      return child1, child2;
    }
    return mammybeat, daddybeat;
  }

  /** The pieces of the treble parts. */
  function TreblePieces(mammy: Elem, daddy: Elem, draw: CrossDraw): (seq<Elem>, seq<Elem>)
  {
    Pieces(PartsOf(mammy.children), PartsOf(daddy.children), 0, draw.trebleCut)
  }

  /** The pieces of the bass parts. */
  function BassPieces(mammy: Elem, daddy: Elem, draw: CrossDraw): (seq<Elem>, seq<Elem>)
  {
    Pieces(PartsOf(mammy.children), PartsOf(daddy.children), 1, draw.bassCut)
  }

  function TrebleCut(mammy: Elem, daddy: Elem, draw: CrossDraw): nat
  {
    Cut(PartsOf(mammy.children), PartsOf(daddy.children), 0, draw.trebleCut)
  }

  /** Because the suffix bound is 1, a treble piece is the first `slicer`
      treble elements of one parent, or, when `slicer` is 0, the first
      treble element of the other; either way it has max(slicer, 1)
      elements, and `slicer` is at most the shorter treble's length. */
  lemma TreblePiecesShape(mammy: Elem, daddy: Elem, draw: CrossDraw)
    requires PartsOf(mammy.children)[0] != [] && PartsOf(daddy.children)[0] != []
    ensures var mt, dt, s := PartsOf(mammy.children)[0], PartsOf(daddy.children)[0], TrebleCut(mammy, daddy, draw);
      var t := TreblePieces(mammy, daddy, draw);
      && s <= |mt| && s <= |dt|
      && |t.0| == Max(s, 1) && |t.1| == Max(s, 1)
      && (s > 0 && |dt| > |mt| ==> t.0 == mt[..s] && t.1 == dt[..s])
      && (s > 0 && |dt| <= |mt| ==> t.0 == dt[..s] && t.1 == mt[..s])
      && (s == 0 && |dt| > |mt| ==> t.0 == [dt[0]] && t.1 == [mt[0]])
      && (s == 0 && |dt| <= |mt| ==> t.0 == [mt[0]] && t.1 == [dt[0]])
  {
    var mt, dt, s := PartsOf(mammy.children)[0], PartsOf(daddy.children)[0], TrebleCut(mammy, daddy, draw);
    if s == 0 {
      assert PySlice(mt, 0, 1) == [mt[0]] && PySlice(dt, 0, 1) == [dt[0]];
    } else {
      assert PySlice(mt, 0, s) == mt[..s] && PySlice(dt, 0, s) == dt[..s];
    }
  }

  /** When the conditions hold the recombined beats are returned: the test
      that repeats the treble test, and the test for an empty child, never
      send the parents back. Otherwise the parents come back unchanged. */
  lemma CrossoverRecombines(mammy: Elem, daddy: Elem, rate: real, draw: CrossDraw)
    ensures !Recombines(mammy, daddy, rate, draw) ==> CrossoverOf(mammy, daddy, rate, draw) == (mammy, daddy)
    ensures Recombines(mammy, daddy, rate, draw) ==>
      var t, b := TreblePieces(mammy, daddy, draw), BassPieces(mammy, daddy, draw);
      CrossoverOf(mammy, daddy, rate, draw) == (NewElement("beat", t.0 + b.0), NewElement("beat", t.1 + b.1))
  {
    if Recombines(mammy, daddy, rate, draw) {
      TreblePiecesShape(mammy, daddy, draw);
    }
  }

  /** A recombined child holds no backup, and every element of it is a
      child of one of the parents. */
  lemma CrossoverChildrenFromParents(mammy: Elem, daddy: Elem, rate: real, draw: CrossDraw)
    ensures var r := CrossoverOf(mammy, daddy, rate, draw);
      Recombines(mammy, daddy, rate, draw) ==>
        && (forall x :: x in r.0.children ==> !IsBackup(x) && (x in mammy.children || x in daddy.children))
        && (forall x :: x in r.1.children ==> !IsBackup(x) && (x in mammy.children || x in daddy.children))
  {
    CrossoverRecombines(mammy, daddy, rate, draw);
    if Recombines(mammy, daddy, rate, draw) {
      var mn, dn := PartsOf(mammy.children), PartsOf(daddy.children);
      var t, b := TreblePieces(mammy, daddy, draw), BassPieces(mammy, daddy, draw);
      forall x | x in t.0 || x in t.1
        ensures !IsBackup(x) && (x in mammy.children || x in daddy.children)
      {
        PiecesMembers(mn, dn, 0, draw.trebleCut, x);
        if x in mn[0] {
          PartsOfMembers(mammy.children, x);
        } else {
          PartsOfMembers(daddy.children, x);
        }
      }
      forall x | x in b.0 || x in b.1
        ensures !IsBackup(x) && (x in mammy.children || x in daddy.children)
      {
        PiecesMembers(mn, dn, 1, draw.bassCut, x);
        if x in mn[1] {
          PartsOfMembers(mammy.children, x);
        } else {
          PartsOfMembers(daddy.children, x);
        }
      }
    }
  }

  /** Recombining well-formed parents gives well-formed beats. */
  lemma CrossoverWellFormed(mammy: Elem, daddy: Elem, rate: real, draw: CrossDraw)
    requires WellFormedBeat(mammy) && WellFormedBeat(daddy)
    ensures var r := CrossoverOf(mammy, daddy, rate, draw);
      WellFormedBeat(r.0) && WellFormedBeat(r.1)
  {
    CrossoverRecombines(mammy, daddy, rate, draw);
    CrossoverChildrenFromParents(mammy, daddy, rate, draw);
  }
}
