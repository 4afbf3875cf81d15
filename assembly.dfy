/** Assembling the composition: every four generated beats become one
    measure of the score skeleton. Each beat's notes before its first
    backup go to the treble staff, the notes after it to the bass staff,
    and a single backup whose duration is the sum of the beats' backups
    separates the two in the new measure. */
module Assembly {
  import opened Basics
  import opened Xml
  import opened Features
  import opened Operators

  /** Python raises unless every backup has a first child whose text is an
      integer (`int(note[0].text)`). */
  predicate Timed(cs: seq<Elem>)
  {
    forall i :: 0 <= i < |cs| && IsBackup(cs[i]) ==> |cs[i].children| > 0 && IsNumber(cs[i].children[0].text)
  }

  predicate AllTimed(beats: seq<Elem>)
  {
    forall b :: 0 <= b < |beats| ==> Timed(beats[b].children)
  }

  /** The sum of the durations of the backups among `cs`. */
  function BackupSum(cs: seq<Elem>): int
    requires Timed(cs)
  {
    if cs == [] then 0
    else
      var last := cs[|cs| - 1];
      BackupSum(cs[..|cs| - 1]) + (if IsBackup(last) then NumberOf(last.children[0].text) else 0)
  }

  /** The backup durations of all the beats together. */
  function BackupTotal(beats: seq<Elem>): int
    requires AllTimed(beats)
  {
    if beats == [] then 0 else BackupTotal(beats[..|beats| - 1]) + BackupSum(beats[|beats| - 1].children)
  }

  /** The treble notes of the beats, beat after beat. */
  function Trebles(beats: seq<Elem>): seq<Elem>
  {
    if beats == [] then [] else Trebles(beats[..|beats| - 1]) + PartsOf(beats[|beats| - 1].children)[0]
  }

  /** The bass notes of the beats, beat after beat. */
  function Basses(beats: seq<Elem>): seq<Elem>
  {
    if beats == [] then [] else Basses(beats[..|beats| - 1]) + PartsOf(beats[|beats| - 1].children)[1]
  }

  /** Every child of the beats that is not a backup, beat after beat. */
  function AllNotes(beats: seq<Elem>): seq<Elem>
  {
    if beats == [] then [] else AllNotes(beats[..|beats| - 1]) + NonBackups(beats[|beats| - 1].children)
  }

  /** `<backup><duration>d</duration></backup>` as parsed from text. */
  function BackupOf(d: int): (b: Elem)
    ensures IsBackup(b) && |b.children| == 1 && b.children[0].tag == "duration"
    ensures b.children[0].text.Some? && ParseInt(b.children[0].text.value) == Some(d)
  {
    ParseIntToString(d);
    NewElement("backup", [Elem("duration", Some(IntToString(d)), None, map[], [])])
  }

  /** The measure numbered `number` that the beats make. */
  function MeasureOf(number: int, beats: seq<Elem>): Elem
    requires AllTimed(beats)
  {
    Elem("measure", None, None, map["number" := IntToString(number)],
         Trebles(beats) + [BackupOf(BackupTotal(beats))] + Basses(beats))
  }

  /** The score with `measure` appended to its first part. */
  function AppendToFirstPart(root: Elem, measure: Elem): Elem
    requires FindAll(root, ["part"]) != []
  {
    CountTaggedFindAll(root.children, "part");
    var p := NthTagged(root.children, "part", 0);
    var part := root.children[p];
    root.(children := root.children[p := part.(children := part.children + [measure])])
  }

  lemma TimedPrefix(cs: seq<Elem>, n: nat)
    requires Timed(cs) && n <= |cs|
    ensures Timed(cs[..n])
  {
    assert forall i :: 0 <= i < n ==> cs[..n][i] == cs[i];
  }

  lemma AllTimedPrefix(beats: seq<Elem>, n: nat)
    requires AllTimed(beats) && n <= |beats|
    ensures AllTimed(beats[..n])
  {
    assert forall b :: 0 <= b < n ==> beats[..n][b] == beats[b];
  }

  /** Taking one more beat into account. */
  lemma BeatStep(beats: seq<Elem>, b: nat)
    requires AllTimed(beats) && b < |beats|
    ensures AllTimed(beats[..b]) && AllTimed(beats[..b + 1])
    ensures Trebles(beats[..b + 1]) == Trebles(beats[..b]) + PartsOf(beats[b].children)[0]
    ensures Basses(beats[..b + 1]) == Basses(beats[..b]) + PartsOf(beats[b].children)[1]
    ensures BackupTotal(beats[..b + 1]) == BackupTotal(beats[..b]) + BackupSum(beats[b].children)
  {
    AllTimedPrefix(beats, b);
    AllTimedPrefix(beats, b + 1);
    assert beats[..b + 1][..b] == beats[..b];
  }

  /** The number the measure carries reads back as `number`. */
  lemma MeasureNumbered(number: int, beats: seq<Elem>)
    requires AllTimed(beats)
    ensures "number" in MeasureOf(number, beats).attrib
    ensures ParseInt(MeasureOf(number, beats).attrib["number"]) == Some(number)
  {
    ParseIntToString(number);
  }

  lemma {:induction false} TreblesNoBackups(beats: seq<Elem>)
    ensures forall x :: x in Trebles(beats) ==> !IsBackup(x)
    ensures forall x :: x in Basses(beats) ==> !IsBackup(x)
  {
    if beats != [] {
      var init, cs := beats[..|beats| - 1], beats[|beats| - 1].children;
      TreblesNoBackups(init);
      forall x | x in PartsOf(cs)[0] || x in PartsOf(cs)[1] ensures !IsBackup(x) {
        PartsOfMembers(cs, x);
      }
    }
  }

  /** Splitting the assembled measure the way crossover splits a beat gives
      back the treble and the bass notes, and filtering out the backup
      joins them. */
  lemma MeasureSplitsBack(number: int, beats: seq<Elem>)
    requires AllTimed(beats)
    ensures PartsOf(MeasureOf(number, beats).children) == [Trebles(beats), Basses(beats)]
    ensures NonBackups(MeasureOf(number, beats).children) == Trebles(beats) + Basses(beats)
  {
    TreblesNoBackups(beats);
    SplitAtBackup(Trebles(beats), BackupOf(BackupTotal(beats)), Basses(beats));
  }

  /** The summed backup is the only backup of the measure, and it sits
      between the two staves. */
  lemma MeasureHasOneBackup(number: int, beats: seq<Elem>, i: nat)
    requires AllTimed(beats) && i < |MeasureOf(number, beats).children|
    ensures IsBackup(MeasureOf(number, beats).children[i]) <==> i == |Trebles(beats)|
  {
    TreblesNoBackups(beats);
    OnlyBackupAt(Trebles(beats), BackupOf(BackupTotal(beats)), Basses(beats), i);
  }

  /** No note is lost or duplicated: the treble and bass notes together
      are exactly the beats' notes that are not backups. */
  lemma {:induction false} StavesKeepEveryNote(beats: seq<Elem>)
    ensures multiset(Trebles(beats) + Basses(beats)) == multiset(AllNotes(beats))
  {
    if beats != [] {
      var init, cs := beats[..|beats| - 1], beats[|beats| - 1].children;
      StavesKeepEveryNote(init);
      PartsOfDropsBackups(cs);
      calc {
        multiset(Trebles(beats) + Basses(beats));
        multiset(Trebles(init)) + multiset(PartsOf(cs)[0]) + multiset(Basses(init)) + multiset(PartsOf(cs)[1]);
        multiset(Trebles(init) + Basses(init)) + multiset(PartsOf(cs)[0] + PartsOf(cs)[1]);
        multiset(AllNotes(init)) + multiset(NonBackups(cs));
      }
    }
  }

  /** Only the first part changes, and it gains the measure as its last
      measure. */
  lemma AppendedMeasureIsLast(root: Elem, measure: Elem)
    requires FindAll(root, ["part"]) != [] && measure.tag == "measure"
    ensures var r := AppendToFirstPart(root, measure);
      && |r.children| == |root.children|
      && FindAll(r, ["part"]) != []
      && FindAll(FindFirst(r, ["part"]).value, ["measure"]) == FindAll(FindFirst(root, ["part"]).value, ["measure"]) + [measure]
    ensures CountTagged(root.children, "part") > 0
    ensures var r, p := AppendToFirstPart(root, measure), NthTagged(root.children, "part", 0);
      && root.children[p] == FindFirst(root, ["part"]).value
      && r.tag == root.tag && r.text == root.text && r.tail == root.tail && r.attrib == root.attrib
      && (forall i :: 0 <= i < |root.children| && i != p ==> r.children[i] == root.children[i])
      && r.children[p] == root.children[p].(children := root.children[p].children + [measure])
  {
    CountTaggedFindAll(root.children, "part");
    var p := NthTagged(root.children, "part", 0);
    var part := root.children[p];
    var newPart := part.(children := part.children + [measure]);
    var r := AppendToFirstPart(root, measure);
    FindAllInReplace(root.children, p, newPart, ["part"]);
    FirstPartAt(root.children, p);
    FindAllInAppend(part.children, [measure], ["measure"]);
    assert [measure][1..] == [];
    assert ["measure"][1..] == [];
    assert FindAllIn([measure], ["measure"]) == [measure];
    NthTaggedFound(root.children, "part", 0);
  }

  /** The first part sits at `NthTagged(cs, "part", 0)`: no earlier child is
      a part, so the parts found before it are none. */
  lemma {:induction false} FirstPartAt(cs: seq<Elem>, p: nat)
    requires CountTagged(cs, "part") > 0 && p == NthTagged(cs, "part", 0)
    ensures FindAllIn(cs[..p], ["part"]) == []
  {
    assert ["part"][1..] == [];
    if cs[0].tag != "part" {
      FirstPartAt(cs[1..], p - 1);
      assert cs[..p] == [cs[0]] + cs[1..][..p - 1];
      assert FindAllIn(cs[..p], ["part"]) == FindAllIn(cs[1..][..p - 1], ["part"]);
    }
  }

  /** Where the first backup is once one more child is added. */
  lemma {:induction false} FirstBackupSnoc(p: seq<Elem>, c: Elem)
    ensures FirstBackup(p + [c]) == if FirstBackup(p) < |p| then FirstBackup(p) else if IsBackup(c) then |p| else |p| + 1
  {
    if p != [] {
      assert (p + [c])[1..] == p[1..] + [c];
      FirstBackupSnoc(p[1..], c);
    }
  }

  /** One more child after the first backup goes to the bass staff
      unless it is a backup itself. */
  lemma PartsSnocBass(p: seq<Elem>, c: Elem)
    requires FirstBackup(p) < |p|
    ensures FirstBackup(p + [c]) < |p| + 1
    ensures PartsOf(p + [c])[0] == PartsOf(p)[0]
    ensures PartsOf(p + [c])[1] == PartsOf(p)[1] + if IsBackup(c) then [] else [c]
  {
    var f := FirstBackup(p);
    FirstBackupSnoc(p, c);
    PartsAt(p, f);
    PartsAt(p + [c], f);
    SnocSlices(p, c, f);
    NonBackupsSnoc(p[f + 1..], c);
  }

  /** The two staves of a beat whose first backup is at `f`. */
  lemma PartsAt(cs: seq<Elem>, f: nat)
    requires f == FirstBackup(cs) < |cs|
    ensures PartsOf(cs)[0] == cs[..f] && PartsOf(cs)[1] == NonBackups(cs[f + 1..])
  {
    var t, b := cs[..f], NonBackups(cs[f + 1..]);
    assert PartsOf(cs) == [t, b];
  }

  lemma SnocSlices(p: seq<Elem>, c: Elem, f: nat)
    requires f < |p|
    ensures (p + [c])[..f] == p[..f] && (p + [c])[f + 1..] == p[f + 1..] + [c]
  {
  }

  lemma NonBackupsSnoc(xs: seq<Elem>, c: Elem)
    ensures NonBackups(xs + [c]) == NonBackups(xs) + if IsBackup(c) then [] else [c]
  {
    assert (xs + [c])[..|xs|] == xs;
  }

  /** Before any backup, a backup child moves the split to the bass staff
      and adds nothing. */
  lemma PartsSnocBackup(p: seq<Elem>, c: Elem)
    requires FirstBackup(p) == |p| && IsBackup(c)
    ensures FirstBackup(p + [c]) == |p|
    ensures PartsOf(p + [c])[0] == PartsOf(p)[0] && PartsOf(p + [c])[1] == PartsOf(p)[1]
  {
    FirstBackupSnoc(p, c);
    assert (p + [c])[..|p|] == p;
  }

  /** Before any backup, a note goes to the treble staff. */
  lemma PartsSnocTreble(p: seq<Elem>, c: Elem)
    requires FirstBackup(p) == |p| && !IsBackup(c)
    ensures FirstBackup(p + [c]) == |p| + 1
    ensures PartsOf(p + [c])[0] == PartsOf(p)[0] + [c] && PartsOf(p + [c])[1] == PartsOf(p)[1]
  {
    FirstBackupSnoc(p, c);
  }

  /** A non-empty sequence is its prefix and its last element. */
  lemma AroundLast(cs: seq<Elem>)
    requires cs != []
    ensures cs == cs[..|cs| - 1] + [cs[|cs| - 1]]
  {
  }

  /** Where the inner loop of `addToPiece` stands after some children:
      the staff it files notes on (`index`), what it filed on each staff,
      and the backup durations it added. */
  datatype Staves = Staves(side: nat, treble: seq<Elem>, bass: seq<Elem>, backup: int)

  function Staffed(cs: seq<Elem>): Staves
    requires Timed(cs)
  {
    if cs == [] then Staves(0, [], [], 0)
    else
      var c := cs[|cs| - 1];
      TimedPrefix(cs, |cs| - 1);
      var s := Staffed(cs[..|cs| - 1]);
      if IsBackup(c) then s.(side := 1, backup := s.backup + NumberOf(c.children[0].text))
      else if s.side == 0 then s.(treble := s.treble + [c])
      else s.(bass := s.bass + [c])
  }

  /** Filing children one by one splits them as `PartsOf` does, the staff
      switching at the first backup, and adds up their backups. */
  lemma {:induction false} StaffedParts(cs: seq<Elem>)
    requires Timed(cs)
    ensures Staffed(cs) == Staves(if FirstBackup(cs) < |cs| then 1 else 0, PartsOf(cs)[0], PartsOf(cs)[1], BackupSum(cs))
  {
    if cs != [] {
      var p, c := cs[..|cs| - 1], cs[|cs| - 1];
      TimedPrefix(cs, |cs| - 1);
      StaffedParts(p);
      AroundLast(cs);
      if FirstBackup(p) < |p| {
        PartsSnocBass(p, c);
      } else if IsBackup(c) {
        PartsSnocBackup(p, c);
      } else {
        PartsSnocTreble(p, c);
      }
    }
  }

  /** The inner loop of `addToPiece` over one beat's children: `index`
      starts on the treble staff and moves to the bass staff at a backup,
      whose duration is added to the running total. */
  method SortNotes(cs: seq<Elem>, notes0: seq<seq<Elem>>, backup0: int) returns (notes: seq<seq<Elem>>, backup: int)
    requires |notes0| == 2 && Timed(cs)
    ensures |notes| == 2
    ensures notes[0] == notes0[0] + PartsOf(cs)[0] && notes[1] == notes0[1] + PartsOf(cs)[1]
    ensures backup == backup0 + BackupSum(cs)
  {
    notes, backup := notes0, backup0;
    var index := 0;
    var i := 0;
    assert cs[..0] == [];
    while i < |cs|
      invariant 0 <= i <= |cs| && |notes| == 2 && index < 2 && Timed(cs[..i])
      invariant var st := Staffed(cs[..i]);
        index == st.side && notes[0] == notes0[0] + st.treble && notes[1] == notes0[1] + st.bass
        && backup == backup0 + st.backup
    {
      TimedPrefix(cs, i + 1);
      assert cs[..i + 1][..i] == cs[..i];
      if cs[i].tag == "backup" {
        backup := backup + NumberOf(cs[i].children[0].text);
        index := 1;
      } else {
        notes := notes[index := notes[index] + [cs[i]]];
      }
      i := i + 1;
    }
    assert cs[..i] == cs;
    StaffedParts(cs);
  }

  /** The score under construction (`mxlskeleton`) and the module-level
      measure counter (`globalmeasure`), which starts at 1. */
  class Piece {
    var measureNumber: int
    var score: Elem

    constructor (skeleton: Elem)
      ensures measureNumber == 1 && score == skeleton
    {
      measureNumber := 1;
      score := skeleton;
    }

    /** `addToPiece`: numbers a new measure with the incremented counter,
        sorts the beats' notes onto the two staves with the summed backup
        between them, and appends the measure to the first part. */
    method AddToPiece(fourbeats: seq<Elem>)
      requires FindAll(score, ["part"]) != []
      requires AllTimed(fourbeats)
      modifies this
      ensures measureNumber == old(measureNumber) + 1
      ensures score == AppendToFirstPart(old(score), MeasureOf(measureNumber, fourbeats))
    {
      measureNumber := measureNumber + 1;
      var notes: seq<seq<Elem>> := [[], []];
      var backup := 0;
      var b := 0;
      while b < |fourbeats|
        invariant 0 <= b <= |fourbeats|
        invariant score == old(score) && measureNumber == old(measureNumber) + 1
        invariant |notes| == 2 && notes[0] == Trebles(fourbeats[..b]) && notes[1] == Basses(fourbeats[..b])
        invariant AllTimed(fourbeats[..b]) && backup == BackupTotal(fourbeats[..b])
      {
        BeatStep(fourbeats, b);
        notes, backup := SortNotes(fourbeats[b].children, notes, backup);
        b := b + 1;
      }
      assert fourbeats[..b] == fourbeats;
      var children: seq<Elem> := [];
      var k := 0;
      while k < |notes[0]|
        invariant 0 <= k <= |notes[0]| && children == notes[0][..k]
        invariant score == old(score) && measureNumber == old(measureNumber) + 1
      {
        TakeSnoc(notes[0], k);
        children := children + [notes[0][k]];
        k := k + 1;
      }
      assert notes[0][..k] == notes[0];
      children := children + [BackupOf(backup)];
      ghost var staffOne := children;
      k := 0;
      while k < |notes[1]|
        invariant 0 <= k <= |notes[1]| && children == staffOne + notes[1][..k]
        invariant score == old(score) && measureNumber == old(measureNumber) + 1
      {
        TakeSnoc(notes[1], k);
        children := children + [notes[1][k]];
        k := k + 1;
      }
      assert notes[1][..k] == notes[1];
      var measure := Elem("measure", None, None, map["number" := IntToString(measureNumber)], children);
      score := AppendToFirstPart(score, measure);
    }
  }
}
