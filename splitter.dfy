/** Splitting an annotated score into the SPEAC beat library: the children
    of a measure are grouped by their `beatnumber` attribute, each beat is
    filed under the SPEAC identifier of its first `speac` annotation, and
    each filed beat is rebuilt as a `beat` element (dropped when it holds a
    rest, with a backup to the bass staff inserted before its first
    staff-2 note). */
module Splitter {
  import opened Basics
  import opened Xml
  import opened Features
  import opened Operators

  // ---------------------------------------------------------------------
  // groupBeats

  /** The beat a measure child belongs to: its `beatnumber` attribute. */
  function BeatNumber(n: Elem): Option<string>
  {
    if n.attrib != map[] && "beatnumber" in n.attrib then Some(n.attrib["beatnumber"]) else None
  }

  /** The children carrying beat number `k`, in document order. */
  function Group(cs: seq<Elem>, k: string): (g: seq<Elem>)
    ensures |g| <= |cs|
  {
    if cs == [] then []
    else Group(cs[..|cs| - 1], k) + (if BeatNumber(cs[|cs| - 1]) == Some(k) then [cs[|cs| - 1]] else [])
  }

  /** The beat numbers in the order they first appear. */
  function Keys(cs: seq<Elem>): seq<string>
  {
    if cs == [] then []
    else
      var ks := Keys(cs[..|cs| - 1]);
      var b := BeatNumber(cs[|cs| - 1]);
      ks + (if b.Some? && b.value !in ks then [b.value] else [])
  }

  /** The `defaultdict` `groupBeats` returns, with its insertion order. */
  datatype BeatGroups = BeatGroups(order: seq<string>, groups: map<string, seq<Elem>>)
  {
    predicate Valid()
    {
      forall i :: 0 <= i < |order| ==> order[i] in groups
    }
  }

  /** What `groupBeats` holds after the children `seen`: the numbers in
      first-appearance order and, for each, its group. */
  ghost predicate GroupedSoFar(seen: seq<Elem>, order: seq<string>, groups: map<string, seq<Elem>>)
  {
    && order == Keys(seen)
    && (forall k :: k in groups <==> k in order)
    && (forall k :: k in groups ==> groups[k] == Group(seen, k))
  }

  /** `groupBeats`: one pass over the measure's children, appending each
      child with a beat number to that number's list. */
  method GroupBeats(measure: Elem) returns (r: BeatGroups)
    ensures r.Valid()
    ensures r.order == Keys(measure.children)
    ensures forall k :: k in r.groups <==> k in Keys(measure.children)
    ensures forall k :: k in r.groups ==> r.groups[k] == Group(measure.children, k)
  {
    var cs := measure.children;
    var order: seq<string> := [];
    var groups: map<string, seq<Elem>> := map[];
    var i := 0;
    while i < |cs|
      invariant 0 <= i <= |cs|
      invariant GroupedSoFar(cs[..i], order, groups)
    {
      var note := cs[i];
      TakeSnoc(cs, i);
      ghost var order0, groups0 := order, groups;
      if note.attrib != map[] && "beatnumber" in note.attrib {
        var key := note.attrib["beatnumber"];
        if key !in groups {
          order := order + [key];
        }
        var group := if key in groups then groups[key] else [];
        groups := groups[key := group + [note]];
        GroupAdded(cs[..i], note, key, order0, groups0, order, groups);
      } else {
        GroupSkipped(cs[..i], note, order, groups);
      }
      i := i + 1;
    }
    assert cs[..i] == cs;
    r := BeatGroups(order, groups);
  }

  /** Filing a child with beat number `key`: the number becomes a key if
      it is new, and the child joins its group. */
  lemma GroupAdded(p: seq<Elem>, c: Elem, key: string, order0: seq<string>, groups0: map<string, seq<Elem>>,
                   order: seq<string>, groups: map<string, seq<Elem>>)
    requires GroupedSoFar(p, order0, groups0) && BeatNumber(c) == Some(key)
    requires order == if key in groups0 then order0 else order0 + [key]
    requires groups == groups0[key := (if key in groups0 then groups0[key] else []) + [c]]
    ensures GroupedSoFar(p + [c], order, groups)
  {
    GroupSnoc(p, c);
    if key !in groups0 {
      GroupAbsent(p, key);
    }
  }

  /** A child without a beat number changes nothing. */
  lemma GroupSkipped(p: seq<Elem>, c: Elem, order: seq<string>, groups: map<string, seq<Elem>>)
    requires GroupedSoFar(p, order, groups) && BeatNumber(c) == None
    ensures GroupedSoFar(p + [c], order, groups)
  {
    GroupSnoc(p, c);
  }

  /** One more child: its beat number is a new key unless already seen,
      and it joins that number's group. */
  lemma GroupSnoc(p: seq<Elem>, c: Elem)
    ensures Keys(p + [c]) == Keys(p) + if BeatNumber(c).Some? && BeatNumber(c).value !in Keys(p) then [BeatNumber(c).value] else []
    ensures forall k :: Group(p + [c], k) == Group(p, k) + if BeatNumber(c) == Some(k) then [c] else []
  {
    assert (p + [c])[..|p|] == p;
  }

  /** A number not yet seen has an empty group so far. */
  lemma {:induction false} GroupAbsent(cs: seq<Elem>, k: string)
    requires k !in Keys(cs)
    ensures Group(cs, k) == []
  {
    if cs != [] {
      GroupAbsent(cs[..|cs| - 1], k);
    }
  }

  /** A group holds exactly the children with that beat number. */
  lemma {:induction false} GroupMembers(cs: seq<Elem>, k: string, x: Elem)
    ensures x in Group(cs, k) <==> x in cs && BeatNumber(x) == Some(k)
  {
    if cs != [] {
      var init := cs[..|cs| - 1];
      GroupMembers(init, k, x);
      assert cs == init + [cs[|cs| - 1]];
    }
  }

  /** The keys are the beat numbers that occur, each listed once, and each
      has a non-empty group. */
  lemma {:induction false} KeysAreBeatNumbers(cs: seq<Elem>)
    ensures forall k :: k in Keys(cs) <==> exists x :: x in cs && BeatNumber(x) == Some(k)
    ensures forall i, j :: 0 <= i < j < |Keys(cs)| ==> Keys(cs)[i] != Keys(cs)[j]
    ensures forall k :: k in Keys(cs) ==> Group(cs, k) != []
  {
    if cs != [] {
      var init, last := cs[..|cs| - 1], cs[|cs| - 1];
      KeysAreBeatNumbers(init);
      assert cs == init + [last];
      forall k | k in Keys(cs) ensures Group(cs, k) != [] {
        if k !in Keys(init) {
          assert BeatNumber(last) == Some(k);
        }
      }
    }
  }

  // ---------------------------------------------------------------------
  // categorise

  /** The first `speac` element any note of the beat has as a child. */
  function SpeacOf(beat: seq<Elem>): (r: Option<Elem>)
    ensures r.Some? ==> r.value.tag == "speac"
  {
    if beat == [] then None
    else match FindFirst(beat[0], ["speac"])
      case Some(s) =>
        assert ["speac"][1..] == [];
        FindAllInTag(beat[0].children, "speac", s);
        Some(s)
      case None => SpeacOf(beat[1..])
  }

  /** A beat has a `speac` element exactly when one of its notes has a
      `speac` child, and the one found is that of the first such note. */
  lemma {:induction false} SpeacOfFirstNote(beat: seq<Elem>)
    ensures SpeacOf(beat).None? <==> forall i :: 0 <= i < |beat| ==> FindFirst(beat[i], ["speac"]).None?
    ensures SpeacOf(beat).Some? ==>
      exists i :: 0 <= i < |beat| && SpeacOf(beat) == FindFirst(beat[i], ["speac"])
        && forall j :: 0 <= j < i ==> FindFirst(beat[j], ["speac"]).None?
  {
    if beat != [] && FindFirst(beat[0], ["speac"]).None? {
      var rest := beat[1..];
      SpeacOfFirstNote(rest);
      assert forall i :: 0 < i < |beat| ==> beat[i] == rest[i - 1];
      if SpeacOf(rest).Some? {
        var i :| 0 <= i < |rest| && SpeacOf(rest) == FindFirst(rest[i], ["speac"])
          && forall j :: 0 <= j < i ==> FindFirst(rest[j], ["speac"]).None?;
        assert SpeacOf(beat) == FindFirst(beat[i + 1], ["speac"]);
      }
    }
  }

  /** Python raises when the text of the first `speac` element is `None`. */
  predicate Annotated(beat: seq<Elem>)
  {
    SpeacOf(beat).Some? ==> SpeacOf(beat).value.text.Some?
  }

  /** The SPEAC identifier a beat is filed under: the first two characters
      of its first `speac` text. */
  function IdOf(beat: seq<Elem>): (r: Option<string>)
    requires Annotated(beat)
    ensures r.Some? <==> SpeacOf(beat).Some?
    ensures r.Some? ==> |r.value| <= 2
  {
    match SpeacOf(beat)
    case None => None
    case Some(s) => Some(PySlice(s.text.value, 0, 2))
  }

  /** Every key is grouped and every beat's identifier, if it has one,
      names an existing bucket (`SPEACdict[ID]` raises otherwise). */
  predicate Fileable(ids: set<string>, g: BeatGroups)
  {
    g.Valid()
    && forall i :: 0 <= i < |g.order| ==>
         (Annotated(g.groups[g.order[i]])
          && (IdOf(g.groups[g.order[i]]).Some? ==> IdOf(g.groups[g.order[i]]).value in ids))
  }

  /** The beats, listed in `ks` order, whose identifier is `id`. */
  function BeatsFor(ks: seq<string>, groups: map<string, seq<Elem>>, id: string): seq<seq<Elem>>
    requires forall i :: 0 <= i < |ks| ==> ks[i] in groups && Annotated(groups[ks[i]])
  {
    if ks == [] then []
    else
      var init := ks[..|ks| - 1];
      var beat := groups[ks[|ks| - 1]];
      BeatsFor(init, groups, id) + (if IdOf(beat) == Some(id) then [beat] else [])
  }

  /** Every beat of a bucket's additions has that identifier, and a beat is
      added to one bucket at most. */
  lemma {:induction false} BeatsForMembers(ks: seq<string>, groups: map<string, seq<Elem>>, id: string, beat: seq<Elem>)
    requires forall i :: 0 <= i < |ks| ==> ks[i] in groups && Annotated(groups[ks[i]])
    ensures beat in BeatsFor(ks, groups, id) <==> (exists i :: 0 <= i < |ks| && groups[ks[i]] == beat) && IdOf(beat) == Some(id)
  {
    if ks != [] {
      var init := ks[..|ks| - 1];
      BeatsForMembers(init, groups, id, beat);
      assert forall i :: 0 <= i < |init| ==> init[i] == ks[i];
      if (exists i :: 0 <= i < |ks| && groups[ks[i]] == beat) && !(exists i :: 0 <= i < |init| && groups[init[i]] == beat) {
        assert groups[ks[|ks| - 1]] == beat;
      }
    }
  }

  /** Every bucket holds what it held at the start followed by the beats
      of the keys `ks` filed under its identifier. */
  ghost predicate FiledSoFar(buckets: map<string, seq<seq<Elem>>>, start: map<string, seq<seq<Elem>>>,
                             ks: seq<string>, groups: map<string, seq<Elem>>)
    requires forall i :: 0 <= i < |ks| ==> ks[i] in groups && Annotated(groups[ks[i]])
  {
    buckets.Keys == start.Keys
    && forall id :: id in buckets ==> buckets[id] == start[id] + BeatsFor(ks, groups, id)
  }

  /** Filing the beat of one more key. */
  lemma FiledStep(buckets0: map<string, seq<seq<Elem>>>, start: map<string, seq<seq<Elem>>>,
                  ks: seq<string>, groups: map<string, seq<Elem>>, k: string, buckets: map<string, seq<seq<Elem>>>)
    requires forall i :: 0 <= i < |ks| ==> ks[i] in groups && Annotated(groups[ks[i]])
    requires k in groups && Annotated(groups[k]) && FiledSoFar(buckets0, start, ks, groups)
    requires IdOf(groups[k]).None? ==> buckets == buckets0
    requires IdOf(groups[k]).Some? ==> (IdOf(groups[k]).value in buckets0
      && buckets == buckets0[IdOf(groups[k]).value := buckets0[IdOf(groups[k]).value] + [groups[k]]])
    ensures FiledSoFar(buckets, start, ks + [k], groups)
  {
    var ks' := ks + [k];
    assert ks'[..|ks'| - 1] == ks;
  }

  /** The SPEAC buckets (`SPEACdict`): one list of beats per identifier. */
  class SpeacIndex {
    var buckets: map<string, seq<seq<Elem>>>

    /** `{k: [] for k in speacIDList}`. */
    constructor (ids: set<string>)
      ensures buckets.Keys == ids
      ensures forall id :: id in buckets ==> buckets[id] == []
    {
      buckets := map id | id in ids :: [];
    }

    /** `categorise`: files each beat of the measure, in order, at the end of
        the bucket its identifier names; beats without a `speac` annotation
        are skipped. */
    method Categorise(measure: BeatGroups)
      requires Fileable(buckets.Keys, measure)
      modifies this
      ensures buckets.Keys == old(buckets).Keys
      ensures forall id :: id in buckets ==> buckets[id] == old(buckets)[id] + BeatsFor(measure.order, measure.groups, id)
    {
      var i := 0;
      while i < |measure.order|
        invariant 0 <= i <= |measure.order|
        invariant buckets.Keys == old(buckets).Keys
        invariant FiledSoFar(buckets, old(buckets), measure.order[..i], measure.groups)
      {
        var note := measure.groups[measure.order[i]];
        TakeSnoc(measure.order, i);
        ghost var buckets0 := buckets;
        var speac := FirstSpeac(note);
        if speac.Some? {
          var id := PySlice(speac.value.text.value, 0, 2);
          buckets := buckets[id := buckets[id] + [note]];
        }
        FiledStep(buckets0, old(buckets), measure.order[..i], measure.groups, measure.order[i], buckets);
        i := i + 1;
      }
      assert measure.order[..i] == measure.order;
    }
  }

  /** The inner loop of `categorise`: the notes are searched in order and
      the search stops at the first `speac` element found. */
  method FirstSpeac(beat: seq<Elem>) returns (speac: Option<Elem>)
    ensures speac == SpeacOf(beat)
  {
    speac := None;
    var i := 0;
    while i < |beat|
      invariant 0 <= i <= |beat|
      invariant speac.None? && SpeacOf(beat) == SpeacOf(beat[i..])
    {
      assert beat[i..][0] == beat[i];
      speac := FindFirst(beat[i], ["speac"]);
      if speac.Some? {
        return;
      }
      assert beat[i..][1..] == beat[i + 1..];
      i := i + 1;
    }
  }

  // ---------------------------------------------------------------------
  // the beat loop of writeToFile

  /** `notes.findall("rest") != []`. */
  predicate HasRest(n: Elem) { FindAll(n, ["rest"]) != [] }

  /** `notes.findtext("staff") == "2"`: a note of the bass staff. */
  predicate OnStaffTwo(n: Elem) { FindText(n, "staff") == Some("2") }

  /** The position of the first note satisfying the test, or the length. */
  function FirstRest(beat: seq<Elem>): (i: nat)
    ensures i <= |beat| && (i < |beat| ==> HasRest(beat[i]))
    ensures forall j :: 0 <= j < i ==> !HasRest(beat[j])
  {
    if beat == [] then 0 else if HasRest(beat[0]) then 0 else 1 + FirstRest(beat[1..])
  }

  function FirstStaffTwo(beat: seq<Elem>): (i: nat)
    ensures i <= |beat| && (i < |beat| ==> OnStaffTwo(beat[i]))
    ensures forall j :: 0 <= j < i ==> !OnStaffTwo(beat[j])
  {
    if beat == [] then 0 else if OnStaffTwo(beat[0]) then 0 else 1 + FirstStaffTwo(beat[1..])
  }

  /** Python raises unless the first staff-2 note the loop reaches (before
      any rest ends it) has a `duration` child whose text is an integer. */
  predicate DurationReadable(beat: seq<Elem>)
  {
    var s := FirstStaffTwo(beat);
    s < |beat| && s < FirstRest(beat) ==> IsNumber(FindText(beat[s], "duration"))
  }

  /** The backup inserted before the note `n` of the bass staff: its own
      duration text when that exceeds 48, otherwise "48". */
  function BackupBefore(n: Elem): (b: Elem)
    requires IsNumber(FindText(n, "duration"))
    ensures IsBackup(b) && |b.children| == 1 && b.children[0].tag == "duration"
  {
    var duration := FindText(n, "duration");
    var text := if NumberOf(duration) > 48 then duration.value else "48";
    NewElement("backup", [Elem("duration", Some(text), None, map[], [])])
  }

  /** The notes with the backup in place before the first staff-2 note. */
  function Arranged(beat: seq<Elem>): seq<Elem>
    requires DurationReadable(beat) && FirstRest(beat) == |beat|
  {
    var s := FirstStaffTwo(beat);
    if s < |beat| then beat[..s] + [BackupBefore(beat[s])] + beat[s..] else beat
  }

  /** What the loop appends to the SPEAC file for one beat, if anything. */
  function BuiltBeat(beat: seq<Elem>): Option<Elem>
    requires DurationReadable(beat)
  {
    if FirstRest(beat) < |beat| || beat == [] then None
    else Some(Elem("beat", None, Some("\n"), map[], Arranged(beat)))
  }

  /** One pass of the loop body: builds `beatElm` note by note under the
      `backupin` and `emptyBeat` flags and keeps it when it is non-empty and
      no note was a rest. */
  method BuildBeat(beat: seq<Elem>) returns (kept: Option<Elem>)
    requires DurationReadable(beat)
    ensures kept == BuiltBeat(beat)
  {
    var children: seq<Elem> := [];
    var backupin := false;
    var emptyBeat := false;
    var i := 0;
    while i < |beat|
      invariant !emptyBeat && BuiltSoFar(beat, i, backupin, children)
    {
      var notes := beat[i];
      if FindAll(notes, ["rest"]) != [] {
        emptyBeat := true;
        break;
      }
      ghost var children0, backupin0 := children, backupin;
      if FindText(notes, "staff") == Some("2") && !backupin {
        FirstStaffTwoReached(beat, i, backupin, children);
        var duration := FindText(notes, "duration");
        // the duration of the backup: the note's own above 48, else 48
        var text := if NumberOf(duration) > 48 then duration.value else "48";
        var backup := NewElement("backup", [Elem("duration", Some(text), None, map[], [])]);
        children := children + [backup];
        backupin := true;
      }
      children := children + [notes];
      BuiltStep(beat, i, backupin0, children0, backupin, children);
      i := i + 1;
    }
    if emptyBeat {
      return None;
    }
    BuiltDone(beat, backupin, children);
    if |children| > 0 {
      kept := Some(Elem("beat", None, Some("\n"), map[], children));
    } else {
      kept := None;
    }
  }

  /** The state of the note loop after the first `i` notes: none was a
      rest, `backupin` says whether a staff-2 note has been met, and the
      children are those notes with the backup before the first staff-2
      one. */
  ghost predicate BuiltSoFar(beat: seq<Elem>, i: nat, backupin: bool, children: seq<Elem>)
  {
    var s := FirstStaffTwo(beat);
    && DurationReadable(beat) && i <= |beat| && i <= FirstRest(beat)
    && (backupin <==> s < i)
    && (s < i ==> children == beat[..s] + [BackupBefore(beat[s])] + beat[s..i])
    && (s >= i ==> children == beat[..i])
  }

  /** One note that is not a rest goes through the loop body. */
  lemma BuiltStep(beat: seq<Elem>, i: nat, backupin0: bool, children0: seq<Elem>, backupin: bool, children: seq<Elem>)
    requires BuiltSoFar(beat, i, backupin0, children0) && i < |beat| && !HasRest(beat[i])
    requires OnStaffTwo(beat[i]) && !backupin0 ==>
      (IsNumber(FindText(beat[i], "duration")) && children == children0 + [BackupBefore(beat[i])] + [beat[i]] && backupin)
    requires !(OnStaffTwo(beat[i]) && !backupin0) ==> (children == children0 + [beat[i]] && backupin == backupin0)
    ensures BuiltSoFar(beat, i + 1, backupin, children)
  {
    var s := FirstStaffTwo(beat);
    TakeSnoc(beat, i);
    if s <= i {
      assert beat[s..i + 1] == beat[s..i] + [beat[i]];
    }
  }

  /** The first staff-2 note the loop reaches has a readable duration. */
  lemma FirstStaffTwoReached(beat: seq<Elem>, i: nat, backupin: bool, children: seq<Elem>)
    requires BuiltSoFar(beat, i, backupin, children) && i < |beat| && !HasRest(beat[i])
    requires OnStaffTwo(beat[i]) && !backupin
    ensures IsNumber(FindText(beat[i], "duration"))
  {
  }

  /** The loop ran to the end: the children are the arranged notes. */
  lemma BuiltDone(beat: seq<Elem>, backupin: bool, children: seq<Elem>)
    requires BuiltSoFar(beat, |beat|, backupin, children)
    ensures FirstRest(beat) == |beat| && children == Arranged(beat)
    ensures |children| > 0 <==> beat != []
  {
    assert beat[..|beat|] == beat && beat[FirstStaffTwo(beat)..|beat|] == beat[FirstStaffTwo(beat)..];
  }

  /** A beat is kept exactly when it is non-empty and none of its notes is
      a rest. */
  lemma BuiltBeatKept(beat: seq<Elem>)
    requires DurationReadable(beat)
    ensures BuiltBeat(beat).Some? <==> beat != [] && forall i :: 0 <= i < |beat| ==> !HasRest(beat[i])
  {
  }

  lemma NoBackupsIn(notes: seq<Elem>, lo: nat, hi: nat)
    requires lo <= hi <= |notes|
    requires forall i :: 0 <= i < |notes| ==> !IsBackup(notes[i])
    ensures forall x :: x in notes[lo..hi] ==> !IsBackup(x)
  {
  }

  /** Inserting a backup at position `s` of notes with no backup: the
      notes come back when backups are filtered out, and the split falls
      at `s`. */
  lemma BackupInserted(notes: seq<Elem>, s: nat, k: Elem)
    requires s <= |notes| && IsBackup(k)
    requires forall i :: 0 <= i < |notes| ==> !IsBackup(notes[i])
    ensures NonBackups(notes[..s] + [k] + notes[s..]) == notes
    ensures PartsOf(notes[..s] + [k] + notes[s..]) == [notes[..s], notes[s..]]
  {
    NoBackupsIn(notes, 0, s);
    NoBackupsIn(notes, s, |notes|);
    assert notes[0..s] == notes[..s];
    assert notes[s..|notes|] == notes[s..];
    SplitAtBackup(notes[..s], k, notes[s..]);
    assert notes[..s] + notes[s..] == notes;
  }

  /** ... and the inserted backup is the only one. */
  lemma BackupInsertedAlone(notes: seq<Elem>, s: nat, k: Elem, i: nat)
    requires s <= |notes| && IsBackup(k) && i <= |notes|
    requires forall i :: 0 <= i < |notes| ==> !IsBackup(notes[i])
    ensures IsBackup((notes[..s] + [k] + notes[s..])[i]) <==> i == s
  {
    NoBackupsIn(notes, 0, s);
    NoBackupsIn(notes, s, |notes|);
    assert notes[0..s] == notes[..s];
    assert notes[s..|notes|] == notes[s..];
    OnlyBackupAt(notes[..s], k, notes[s..], i);
  }

  /** At most one backup is inserted, right before the first note of the
      bass staff; taking it out gives back the notes in their order. */
  lemma BuiltBeatNotes(beat: seq<Elem>)
    requires DurationReadable(beat) && BuiltBeat(beat).Some?
    requires forall i :: 0 <= i < |beat| ==> !IsBackup(beat[i])
    ensures NonBackups(BuiltBeat(beat).value.children) == beat
    ensures FirstStaffTwo(beat) == |beat| ==> BuiltBeat(beat).value.children == beat
  {
    var s := FirstStaffTwo(beat);
    if s < |beat| {
      BackupInserted(beat, s, BackupBefore(beat[s]));
    } else {
      NoBackupsIn(beat, 0, |beat|);
      assert beat[0..|beat|] == beat;
      NonBackupsNone(beat);
    }
  }

  /** When the beat has a note of the bass staff, the inserted backup is
      the only backup and stands at that note's old position. */
  lemma BuiltBeatBackupAt(beat: seq<Elem>, i: nat)
    requires DurationReadable(beat) && BuiltBeat(beat).Some? && FirstStaffTwo(beat) < |beat|
    requires forall i :: 0 <= i < |beat| ==> !IsBackup(beat[i])
    ensures |BuiltBeat(beat).value.children| == |beat| + 1
    ensures i <= |beat| ==> (IsBackup(BuiltBeat(beat).value.children[i]) <==> i == FirstStaffTwo(beat))
  {
    var s := FirstStaffTwo(beat);
    if i <= |beat| {
      BackupInsertedAlone(beat, s, BackupBefore(beat[s]), i);
    }
  }

  lemma FortyEight()
    ensures ParseInt("48") == Some(48)
  {
    assert AllDigits("48");
    assert "48"[..1] == "4";
    assert DigitsValue("4") == 4;
  }

  /** The inserted backup reads back as the larger of 48 and the bass
      note's duration. */
  lemma BackupDuration(n: Elem)
    requires IsNumber(FindText(n, "duration"))
    ensures BackupBefore(n).children[0].text.Some?
    ensures ParseInt(BackupBefore(n).children[0].text.value) == Some(Max(NumberOf(FindText(n, "duration")), 48))
  {
    FortyEight();
  }

  /** In a beat with no backups of its own, the inserted backup is the split
      that crossover and `addToPiece` use: the treble part is the notes
      before the first staff-2 note, the bass part the rest. */
  lemma BuiltBeatSplits(beat: seq<Elem>)
    requires DurationReadable(beat) && BuiltBeat(beat).Some?
    requires forall i :: 0 <= i < |beat| ==> !IsBackup(beat[i])
    ensures FirstStaffTwo(beat) < |beat| ==>
      PartsOf(BuiltBeat(beat).value.children) == [beat[..FirstStaffTwo(beat)], beat[FirstStaffTwo(beat)..]]
    ensures FirstStaffTwo(beat) == |beat| ==> PartsOf(BuiltBeat(beat).value.children) == [beat, []]
  {
    var s := FirstStaffTwo(beat);
    if s < |beat| {
      BackupInserted(beat, s, BackupBefore(beat[s]));
    } else {
      assert BuiltBeat(beat).value.children == beat;
      NoBackupNoSplit(beat);
    }
  }

  lemma {:induction false} NoBackupNoSplit(cs: seq<Elem>)
    requires forall j :: 0 <= j < |cs| ==> !IsBackup(cs[j])
    ensures PartsOf(cs) == [cs, []]
  {
    if cs != [] {
      NoBackupNoSplit(cs[1..]);
    }
  }

  /** The beats the loop appends to a SPEAC file, in order. */
  function KeptBeats(beatlist: seq<seq<Elem>>): seq<Elem>
    requires forall i :: 0 <= i < |beatlist| ==> DurationReadable(beatlist[i])
  {
    if beatlist == [] then []
    else
      var last := beatlist[|beatlist| - 1];
      KeptBeats(beatlist[..|beatlist| - 1]) + (match BuiltBeat(last) case Some(b) => [b] case None => [])
  }

  /** Lines 62-85 of `writeToFile` for one identifier: the file's root is
      labelled with the identifier and receives the kept beats. */
  method FileBeats(root: Elem, id: string, beatlist: seq<seq<Elem>>) returns (r: Elem)
    requires forall i :: 0 <= i < |beatlist| ==> DurationReadable(beatlist[i])
    ensures r.tag == root.tag && r.text == root.text && r.tail == root.tail
    ensures r.attrib == root.attrib["speacID" := id]
    ensures r.children == root.children + KeptBeats(beatlist)
  {
    r := root.(attrib := root.attrib["speacID" := id]);
    var i := 0;
    while i < |beatlist|
      invariant 0 <= i <= |beatlist|
      invariant r == root.(attrib := root.attrib["speacID" := id], children := root.children + KeptBeats(beatlist[..i]))
    {
      assert beatlist[..i + 1][..i] == beatlist[..i];
      var beatElm := BuildBeat(beatlist[i]);
      if beatElm.Some? {
        r := r.(children := r.children + [beatElm.value]);
      }
      i := i + 1;
    }
    assert beatlist[..i] == beatlist;
  }
}
