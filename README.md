# Genetic beat composer: a Dafny model

This project models the core of a MusicXML composer. The composer builds a
piece beat by beat with a genetic search over a library of beats filed by
SPEAC identifier. A second program builds that library by splitting
annotated scores. The model covers:

- **History** (`history.dfy`): the bounded, newest-first history of returned
  beats (`Queue`) and its structural comparison `elements_equal`.
- **Features** (`features.dfy`): the feature vector of a beat (`pitchMedian`,
  `lengthAvg`, `countNotes`), the squared distance under `checkFitness`, and
  `checkChord`.
- **Operators** (`operators.dfy`): `mutate`, which shifts one note's step
  two letters round the cycle A..G, and `crossover`, which splits both
  parents into treble and bass at the first backup and recombines the parts.
- **Genetic** (`genetic.dfy`): `initChromo`, `Roulette`, and the
  generation loop of `getBeat`. The loop evaluates each chromosome. It
  returns the first beat that is good enough and not in the history. If
  there is none, it breeds the next generation.
- **Assembly** (`assembly.dfy`): `addToPiece`. It turns four beats into one
  numbered measure, with the treble notes, one summed backup, and the bass
  notes. The measure is appended to the first part of the score.
- **Splitter** (`splitter.dfy`, from `ScoreSplitter.py`): `groupBeats`,
  `categorise` with the SPEAC buckets as the state of a `SpeacIndex`, and
  the beat-building loop of `writeToFile`.

`xml.dfy` holds the element tree the whole program works on, as a value:
tag, text, tail, attributes and children. It also holds the `findall` /
`find` / `findtext` queries and the rewrite of the first text a path
reaches. `basics.dfy` holds Python's clamping slice, `int(a / b)`,
`int(text)` and `str(n)`.

Randomness is explicit in the model. Each turn of the breeding loop reads
one `Round` record:

- two values for `random.random()` in the roulette;
- the crossover gate and two raw cuts, reduced as `randint(0, n)` would be;
- the mutation gate, a raw note index and a direction for each offspring.

`getBeat` takes a finite list of rounds. If a generation runs out of
rounds before it is complete, the outcome is `OutOfDraws`. The square root
of `checkFitness` is a parameter `sqrt`, required to be non-negative.

Where the source's names, docstrings and messages differ from its code
(`pitchMedian` "gets median pitch", the "returning closest" message at
src/genetic_compose.py:308), the model follows the code:

- The pitch centre is the positional middle of the unsorted pitch list,
  not the median. `PitchCenterOfUnsortedList` gives a beat where they
  differ. `PitchCenterIsMedianWhenSorted` shows they agree on sorted lists.
- `crossover` bounds each suffix by `len(parts) - 1`, the length of the
  two-element `[treble, bass]` list less one, so the bound is 1. A treble
  piece is therefore a prefix of `max(slicer, 1)` elements
  (`TreblePiecesShape`), not a prefix followed by the other parent's suffix.
  A bass piece is the first `slicer` bass notes of one parent when `slicer`
  is positive. Otherwise it is the other parent's first bass note, and it
  is empty when that parent has no bass notes.
- The cut `randint(0, len)` includes the length.
- The treble test is repeated where a bass test would be expected. In the
  value model the empty-child test never fires (`CrossoverRecombines`),
  because each treble piece holds a note.
- `elements_equal` compares the first element's tag with itself, so tags
  play no part (`ElementsEqualIffSameErased`).
- After ten generations `getBeat` returns the first chromosome of the
  newest, unevaluated generation, not the fittest one.
- The smallest fitness of a pass decides whether the loop goes on.

## Model

| member | source | states |
|---|---|---|
| History.ElementsEqualIffSameErased | src/genetic_compose.py:49-55 | two elements compare equal exactly when they are the same tree once every tag is blanked: tags are never compared |
| History.ElementsEqualReflexive | src/genetic_compose.py:49-55 | every element equals itself, and renaming its tag does not separate it from itself |
| History.ElementsEqualSymmetric | src/genetic_compose.py:49-55 | the comparison is symmetric |
| History.ElementsEqualTransitive | src/genetic_compose.py:49-55 | the comparison is transitive |
| History.Pushed | src/genetic_compose.py:41-44 | the history after a push: the new beat is first and found by `contains`; below capacity the length grows by one and never exceeds the size; behind the new beat comes the old history in order, less its oldest entry when it was full |
| History.PushAllBelowCapacity | src/genetic_compose.py:41-44 | pushing at most `size` beats into an empty history gives them newest first |
| History.EvictsOldest | src/genetic_compose.py:36-44 | pushing `size + 1` beats keeps the last `size`, newest first; the first is no longer found unless a later one compares equal to it |
| History.Queue.constructor | src/genetic_compose.py:37-39 | a queue of the given size starts empty |
| History.Queue.Push | src/genetic_compose.py:41-44 | drops the oldest entry when full, inserts at the front, keeps the length within the size, and the beat is then in the history |
| History.Queue.Pop | src/genetic_compose.py:46-47 | removes and returns the last (oldest) entry |
| History.Queue.Contains | src/genetic_compose.py:57-61 | true exactly when some entry compares equal to the element |
| Genetic.FlattenMember | src/genetic_compose.py:65-67 | a beat is in the flattened pool exactly when it is in one of the beat lists |
| Genetic.SeededMember | src/genetic_compose.py:65-69 | a chromosome is seeded exactly when its beat is in the list, has more than one child, and has fitness 9999 |
| Genetic.InitChromoMembers | src/genetic_compose.py:63-70 | a chromosome is in the initial population exactly when its beat is in one of the lists, has more than one child, and has fitness 9999 |
| Genetic.SeededAppend | src/genetic_compose.py:65-69 | seeding a concatenation seeds each part and keeps them in order |
| Genetic.InitChromoSnoc | src/genetic_compose.py:63-70 | one more beat list adds its seeded beats after the rest, in list order |
| Features.StepValue | src/genetic_compose.py:91 | `ord(step) - 64` is the letter's place from A = 1, so A..G give 1..7 and never 0 |
| Features.PitchList | src/genetic_compose.py:86-93 | steps and octaves are paired in order, the shorter list decides the length, and each value is step value plus 12 times the octave |
| Features.PitchMedian | src/genetic_compose.py:83-99 | the loop computes the pitch centre: 1 with no steps or octaves, else the positional middle of the pitch list |
| Features.MiddleWithin | src/genetic_compose.py:94-99 | the positional middle lies between two entries of the list |
| Features.PitchCenterWithinValues | src/genetic_compose.py:83-99 | a beat's pitch centre lies between two of its pitch values |
| Features.MiddleSplitsSorted | src/genetic_compose.py:94-99 | on a sorted list the middle is at least the lower half and at most the upper half |
| Features.PitchCenterIsMedianWhenSorted | src/genetic_compose.py:83-99 | when the pitch values are already sorted, the centre is their median |
| Features.PitchCenterOfUnsortedList | src/genetic_compose.py:90-99 | for steps C, A, B in octave 4 the list is [51, 49, 50] and the centre is 49, not the median 50 |
| Features.LengthAvg | src/genetic_compose.py:101-109 | the loop computes the average length: -1 without durations, else the sum divided by the count, truncated toward zero |
| Features.AverageLengthWithinDurations | src/genetic_compose.py:103-109 | the average lies between the shortest and the longest duration |
| Features.AverageLengthSentinel | src/genetic_compose.py:103-105 | with non-negative durations, -1 comes back exactly when there is no duration |
| Features.CountNotes | src/genetic_compose.py:111-113 | the count is at most the number of children, and 0 exactly when no child is a note |
| Features.SquaredDistanceZero | src/genetic_compose.py:115-131 | the squared distance is 0 exactly when the beat's feature vector equals the target |
| Features.FirstToken | src/genetic_compose.py:252-253 | `text.split()[0]`: none exactly when the text is all white space; otherwise the first maximal run of non-space characters after the leading space |
| Features.CheckChord | src/genetic_compose.py:249-260 | true exactly when both beats have a chord word and the two words are the same |
| Features.CheckChordSymmetric | src/genetic_compose.py:249-260 | the test is symmetric, and a beat matches itself exactly when it has a chord word |
| Features.WellFormedMeasurable | src/genetic_compose.py:86-109 | a beat whose notes each have as many octaves as steps (at least one), letters A..G and integer octaves and durations can be measured, and pairs every step with an octave |
| Operators.ShiftRotates | src/genetic_compose.py:157-170 | on A..G, plus moves two places up the cycle and minus two places down, and each undoes the other |
| Operators.ShiftOffTheCycle | src/genetic_compose.py:157-170 | the shifts act on any character: plus maps '?' to 'A', and minus maps 'A' to 'F' |
| Operators.ChosenAt | src/genetic_compose.py:148-151 | `random.choice(notes)` picks a child that is a note, and it is the chosen entry of the note list |
| Operators.Mutate | src/genetic_compose.py:145-171 | when the gate does not fire the beat comes back unchanged; the beat's own fields and its number of children never change |
| Operators.MutateOneStep | src/genetic_compose.py:151-170 | a firing mutation changes only the chosen note, and within it only its first pitch that holds a step, which is rewritten at the first step only: that step gets the shifted letter, and the note's own fields, its other children, its octaves and its durations stay |
| Operators.MutateKeepsRhythm | src/genetic_compose.py:145-171 | mutation keeps every duration, the number of notes and the number of steps |
| Operators.MutateWellFormed | src/genetic_compose.py:145-171 | mutation is defined on a well-formed beat and gives a well-formed beat |
| Operators.MutateInverse | src/genetic_compose.py:153-170 | mutating the same note in the other direction restores the beat |
| Operators.NonBackupsMember | src/genetic_compose.py:184-188 | what the split keeps are children of the beat, none of them a backup |
| Operators.PartsOfMembers | src/genetic_compose.py:181-197 | treble and bass hold children of the beat and no backup |
| Operators.PartsOfDropsBackups | src/genetic_compose.py:181-197 | treble followed by bass is exactly the beat's children without its backups, in order |
| Operators.SplitAtBackup | src/genetic_compose.py:181-197 | notes, one backup, notes: the split gives back the two runs, and dropping backups joins them |
| Operators.OnlyBackupAt | src/genetic_compose.py:184-188 | in such a sequence the inserted backup is the only backup |
| Operators.SplitParts | src/genetic_compose.py:181-197 | the loop files children under treble until the first backup and under bass after it, dropping backups |
| Operators.Cut | src/genetic_compose.py:204-211 | the cut is at most the length of each parent's part |
| Operators.PiecesMembers | src/genetic_compose.py:202-215 | every element of a piece comes from that part of one of the parents |
| Operators.Crossover | src/genetic_compose.py:174-247 | the method returns what every branch of `crossover` returns |
| Operators.TreblePiecesShape | src/genetic_compose.py:202-215 | with the suffix bound of 1, each treble piece is the first `slicer` treble notes of one parent, or one note when `slicer` is 0 |
| Operators.CrossoverRecombines | src/genetic_compose.py:177-247 | the parents come back unchanged unless the gate fires, both have more than one child and both trebles are non-empty; otherwise the children are treble pieces followed by bass pieces |
| Operators.CrossoverChildrenFromParents | src/genetic_compose.py:199-238 | a recombined child holds no backup, and each of its elements is a child of a parent |
| Operators.CrossoverWellFormed | src/genetic_compose.py:174-247 | crossover of well-formed beats gives well-formed beats |
| Genetic.Selected | src/genetic_compose.py:136-143 | the roulette's choice for a fixed slice: the first position whose running total reaches the slice, or none when no running total reaches it |
| Genetic.SelectedNoneIff | src/genetic_compose.py:133-143 | with non-negative fitnesses the roulette returns nothing exactly when the population is empty or its total is below the slice |
| Genetic.SliceBelow | src/genetic_compose.py:135 | `random() * total` lies between 0 and the total |
| Genetic.SliceLands | src/genetic_compose.py:133-143 | a slice within the total of a non-empty population always selects a chromosome |
| Genetic.MinFitness | src/genetic_compose.py:284 | the fitness `sorted(...)[0]` reads is that of a chromosome and at most every other fitness |
| Genetic.Engine.constructor | src/genetic_compose.py:23-28 | the engine keeps the rates, starts a fresh empty history of size 24, and has no population yet |
| Genetic.Engine.Roulette | src/genetic_compose.py:133-143 | the loop returns the beat at the selected position, and nothing when no position is selected |
| Genetic.Engine.Evaluate | src/genetic_compose.py:273-282 | rescoring stops at the first chromosome under the threshold that is not in the history; that beat is pushed, the earlier ones are rescored and not acceptable, and the later ones are unchanged. Otherwise every chromosome is rescored, the total is their sum, and the history is untouched |
| Genetic.OffspringsAt | src/genetic_compose.py:288-295 | the pair of offspring at position i is what round i of the draws yields |
| Genetic.NextGenerationSnoc | src/genetic_compose.py:297-302 | one more round adds its offspring with more than one child, at fitness 9999, at the end of the generation |
| Genetic.NextGenerationShape | src/genetic_compose.py:297-302 | every member of a bred generation has fitness 9999, more than one child and a well-formed beat |
| Genetic.NextGenerationMembers | src/genetic_compose.py:286-302 | a chromosome is in a bred generation exactly when some round's offspring is its beat, with more than one child and fitness 9999 |
| Genetic.Engine.Offspring | src/genetic_compose.py:289-295 | the offspring are what the round yields: two roulette parents, crossed and each mutated by the round's draws; both are well-formed |
| Genetic.Engine.Grow | src/genetic_compose.py:289-302 | one turn of the breeding loop: the generation becomes what one more round of draws breeds, and before that round it was still smaller than the population |
| Genetic.Engine.Breed | src/genetic_compose.py:286-302 | the new generation is what the consumed rounds of draws breed from the population; a completed one has between n and n + 1 members and was still below n one round earlier; an incomplete one used up every round; every member has more than one child, fitness 9999 and a well-formed beat |
| Genetic.Engine.Reproduce | src/genetic_compose.py:284-304 | the best fitness of the scored population, and, when breeding completes, the population becomes the generation bred from it with the consumed rounds |
| Genetic.Engine.Generation | src/genetic_compose.py:271-304 | one pass: a found beat is the first chromosome of the population, in order, that is under the threshold and not in the history, and it is pushed; otherwise the history is unchanged, the best fitness of the scored population is returned, and a completed generation is bred from that population |
| Genetic.Engine.Evolve | src/genetic_compose.py:266-311 | the generation loop: at most ten passes, none exactly when the threshold is at least 9999, and then the first chromosome of the starting population is returned; a closest beat after a pass means the tenth pass ran or the best fitness of the last scored population was within the threshold; a found beat is pushed and is the first acceptable chromosome of the population of its pass, which is the starting one after one pass and otherwise was bred from a scored population with a slice of the draws; the closest beat is the first of the population, which, after a pass, was bred from a scored population with a slice of the draws |
| Genetic.Engine.GetBeat | src/genetic_compose.py:262-311 | at most ten passes, and none exactly when the threshold is at least 9999, in which case the population is the initial one and its first chromosome's beat is returned. A found beat is pushed and is the first chromosome, in population order, that is under the threshold against the seed's features and not in the history; that population is the initial one when the beat is found on the first pass, and otherwise was bred by a slice of the draws from a population scored against the seed. Otherwise the first chromosome's beat is returned and the history is unchanged; after a pass, that population was bred by the rounds of a slice of the draws from a population scored against the seed, and either the tenth pass ran or that scored population's best fitness was within the threshold |
| Assembly.BackupOf | src/genetic_compose.py:332 | the backup element holds one duration whose text reads back as the number |
| Assembly.MeasureNumbered | src/genetic_compose.py:316-319 | the new measure's number attribute reads back as the counter's new value |
| Assembly.TreblesNoBackups | src/genetic_compose.py:322-329 | neither staff collects a backup |
| Assembly.MeasureSplitsBack | src/genetic_compose.py:320-334 | splitting the measure the way crossover splits a beat gives back the treble and bass notes, and dropping backups joins them |
| Assembly.MeasureHasOneBackup | src/genetic_compose.py:330-334 | the summed backup is the measure's only backup, between the two staves |
| Assembly.StavesKeepEveryNote | src/genetic_compose.py:322-329 | the treble and bass notes are, as a multiset, exactly the beats' children that are not backups |
| Assembly.AppendedMeasureIsLast | src/genetic_compose.py:317-335 | the root's own fields and every child but the first part stay; the first part keeps its fields and its children, and gains the new measure at their end |
| Assembly.SortNotes | src/genetic_compose.py:323-329 | the loop over one beat adds its treble and bass parts to the two lists and its backup durations to the total |
| Assembly.Piece.constructor | src/genetic_compose.py:313 | the measure counter starts at 1 |
| Assembly.Piece.AddToPiece | src/genetic_compose.py:314-335 | the counter goes up by one, and the score gains the measure numbered with it, holding the treble notes, the summed backup and the bass notes, at the end of the first part |
| Splitter.GroupBeats | src/ScoreSplitter.py:104-117 | the keys are the beat numbers in first-appearance order, and each maps to the children with that number in document order |
| Splitter.GroupMembers | src/ScoreSplitter.py:112-116 | a group holds exactly the children carrying its beat number |
| Splitter.KeysAreBeatNumbers | src/ScoreSplitter.py:112-116 | the keys are exactly the beat numbers that occur, each once, and no group is empty |
| Splitter.SpeacOf | src/ScoreSplitter.py:95-99 | what is found is a `speac` element |
| Splitter.SpeacOfFirstNote | src/ScoreSplitter.py:94-99 | nothing is found exactly when no note has a `speac` child; otherwise what is found is the first `speac` child of the first note that has one |
| Splitter.IdOf | src/ScoreSplitter.py:100-101 | a beat has an identifier exactly when a note has a `speac` child, and it is at most two characters long |
| Splitter.BeatsForMembers | src/ScoreSplitter.py:93-102 | the beats added to a bucket are exactly the measure's beats with that identifier |
| Splitter.SpeacIndex.constructor | src/ScoreSplitter.py:41 | one empty bucket per identifier |
| Splitter.SpeacIndex.Categorise | src/ScoreSplitter.py:91-102 | the set of buckets is unchanged; each bucket gains, at its end and in measure order, the beats whose identifier names it |
| Splitter.FirstSpeac | src/ScoreSplitter.py:94-99 | the search stops at the first note with a `speac` child |
| Splitter.BuildBeat | src/ScoreSplitter.py:66-85 | the loop builds the beat: none when a note has a rest or there are no notes, otherwise the notes with a backup before the first staff-2 note |
| Splitter.BuiltBeatKept | src/ScoreSplitter.py:70-84 | a beat is kept exactly when it is non-empty and no note has a rest |
| Splitter.BackupInserted | src/ScoreSplitter.py:75-83 | inserting one backup into notes without backups: dropping backups gives the notes back, and the split falls at the insertion |
| Splitter.BuiltBeatNotes | src/ScoreSplitter.py:75-85 | for notes without backups, dropping the backup from a kept beat gives the input notes in order; with no staff-2 note nothing is inserted |
| Splitter.BuiltBeatBackupAt | src/ScoreSplitter.py:75-83 | with a staff-2 note, exactly one backup is inserted, at that note's position |
| Splitter.BackupDuration | src/ScoreSplitter.py:76-80 | the backup's duration reads as the larger of 48 and the staff-2 note's duration |
| Splitter.BuiltBeatSplits | src/ScoreSplitter.py:75-83 | the built beat splits, as crossover splits it, into the notes before the first staff-2 note and the rest |
| Splitter.FileBeats | src/ScoreSplitter.py:62-85 | the root is labelled with the identifier and gains the kept beats in order |

## Left out

- File and directory I/O is left out: `getChromo`, `generate`, `ensureExistance`, the parse and write parts of `writeToFile`, `split`, and the option parsing. The beat lists `getChromo` would read are the engine's `pool`.
- `SPEACIDs` and `markov_compose` are not part of this model. The bucket identifiers are a parameter of `SpeacIndex`.
- The `random` module is replaced by explicit draws. The order in which the program consumes the random stream is not modelled.
- Floating point is left out: fitness is a `real`, and `sqrt` is a non-negative parameter.
- lxml identity is left out. Elements are values, so the model does not capture `append` moving a node out of its parent, in-place mutation of a beat that several chromosomes share, or `copy`/`deepcopy`. In particular, when the roulette picks the same beat twice (`mammybeat is daddybeat`), the appends at src/genetic_compose.py:228-238 move the parent's notes out of it, so the first child can end up empty and the test at 242-243 returns the stripped parent; the model recombines two copies instead.
- The `print` calls are left out.
- `int(text)` is modelled for an optional sign followed by ASCII digits. Python's leniency for surrounding white space, underscores and non-ASCII digits is left out.
- The step shifts are defined on characters whose shifted code point is a Unicode scalar value. `chr` onto a surrogate is left out.
- Genetic.Engine.GetBeat: runs on a finite list of draws and may end with `OutOfDraws`, where the program would keep drawing.
- Genetic.Engine.GetBeat: requires a non-empty initial population (`InitChromo(pool) != []`). With none, the program raises `IndexError` at src/genetic_compose.py:284 or 311.
- Genetic.Engine.GetBeat: requires the seed beat to be measurable (`Measurable(testbeat)`). Otherwise `pitchMedian` or `lengthAvg` raises on it.
- Genetic.Engine.GetBeat: requires every pool beat to be well-formed (`WellFormedBeat`), which is stronger than what the program needs to avoid raising.
- Features.PitchMedian: requires `PitchesReadable`, letters and integer octaves with both lists empty or both non-empty. Otherwise the program raises in `ord` at src/genetic_compose.py:91, in `int` at 92, or with `IndexError` at 95-99 when only one list is empty.
- Features.LengthAvg: requires `DurationsReadable`, integer durations. Otherwise `int` raises at src/genetic_compose.py:108.
- Operators.Mutate: requires `MutationDefined`: when the gate fires, the chosen note has a `pitch/step` whose text is one character. Otherwise `step.text` fails on `None` at src/genetic_compose.py:157, or `ord` raises at 163 or 170.
- Genetic.Engine.Offspring, Genetic.Engine.Breed: require non-negative fitnesses; `sqrt` guarantees this.
- Assembly.Piece.AddToPiece: requires a `part` child and an integer first child in every backup. Python raises without them, after the counter has already been incremented.
- History.Queue.Pop: requires a non-empty history, where `list.pop()` raises `IndexError` (src/genetic_compose.py:46-47). The queue's `pop` has no caller in `genetic_compose.py`; `push` pops the list itself.
- Splitter.SpeacIndex.Categorise: requires each found `speac` to have text and its identifier to be a bucket, where Python raises.
- Splitter.BuildBeat: requires the first staff-2 note before any rest to have an integer duration, where Python raises.
