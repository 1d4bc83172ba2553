/** The GUI's two readers of detection.log: `MainWindow.updateStatusLabel`,
    which highlights the posture panel from the last record, and
    `LogReaderThread.run`, which streams new text to the log dialog by
    remembering how far it has read. A file is its text, or `None` when it
    does not exist. */
module LogViewer {
  import opened Wrappers
  import opened Text

  // ------------------------------------------------------------ status panel

  /** What `updateStatusLabel` draws over the background square. */
  datatype Panel =
    | NoPanel                // no file, or an empty one
    | CorrectHighlighted     // green "Correct Hand Posture" panel
    | IncorrectHighlighted   // red "Incorrect Hand Posture" panel
    | NeutralPanel           // both panels in the neutral colour

  const CorrectMarker: string := "Correct hand posture"
  const IncorrectMarker: string := "Incorrect hand posture"

  /** The substring tests on the latest entry, in the code's order. */
  function ClassifyEntry(entry: string): (p: Panel)
    ensures p != NoPanel
    ensures p == CorrectHighlighted <==> exists i :: OccursAt(CorrectMarker, entry, i)
    ensures p == IncorrectHighlighted <==>
      (forall i :: !OccursAt(CorrectMarker, entry, i)) && exists i :: OccursAt(IncorrectMarker, entry, i)
  {
    if Contains(CorrectMarker, entry) then CorrectHighlighted
    else if Contains(IncorrectMarker, entry) then IncorrectHighlighted
    else NeutralPanel
  }

  /** `updateStatusLabel`: read all lines, strip the last, classify it. */
  function StatusForLog(file: Option<string>): (p: Panel)
    ensures p == NoPanel <==> file.None? || file.value == []
  {
    if file.None? then NoPanel
    else
      var lines := Lines(file.value);
      if lines == [] then NoPanel
      else ClassifyEntry(Strip(lines[|lines| - 1]))
  }

  /** Only the last record counts: appending a line to a log decides the
      panel by that line alone, whatever came before. */
  lemma LastLineDecides(prev: string, e: string)
    requires prev == [] || prev[|prev| - 1] == '\n'
    requires '\n' !in e
    ensures StatusForLog(Some(prev + (e + "\n"))) == ClassifyEntry(Strip(e + "\n"))
  {
    LinesAppendLine(prev, e);
  }

  /** The test is case-sensitive: "Incorrect hand posture detected" has no
      upper-case C, so it does not pass the first test. */
  lemma IncorrectIsNotCorrect()
    ensures ClassifyEntry("Incorrect hand posture detected") == IncorrectHighlighted
  {
    NotContainsWithoutHead(CorrectMarker, "Incorrect hand posture detected");
    assert OccursAt(IncorrectMarker, "Incorrect hand posture detected", 0);
  }

  // ---------------------------------------------------------- log streaming

  /** `LogReaderThread`: how far into the file it has read, as a character
      offset (what `tell()` returns is taken to be that offset). */
  datatype Reader = Reader(position: nat)

  const InitialReader: Reader := Reader(0)

  datatype Read = Read(reader: Reader, chunk: Option<string>)

  /** One pass of `run`: when the file exists, read from the remembered
      position to the end; when that text is not empty, emit it and move
      the position to the end of the file. A missing file, or nothing new,
      changes nothing. */
  function ReadNew(r: Reader, file: Option<string>): (out: Read)
    ensures out.reader.position >= r.position
    ensures out.chunk.Some? <==> file.Some? && r.position < |file.value|
    ensures out.chunk.Some? ==>
      && out.chunk.value == file.value[r.position..] && out.chunk.value != []
      && out.reader.position == |file.value|
    ensures out.chunk.None? ==> out.reader == r
  {
    if file.None? || r.position >= |file.value| then Read(r, None)
    else Read(Reader(|file.value|), Some(file.value[r.position..]))
  }

  datatype Stream = Stream(reader: Reader, chunks: seq<string>)

  /** Passes in order, collecting the chunks emitted: at most one chunk
      per pass, none of them empty, and the position never moves back. */
  function ReadAll(r: Reader, files: seq<Option<string>>): (s: Stream)
    ensures s.reader.position >= r.position
    ensures |s.chunks| <= |files|
    ensures forall k :: 0 <= k < |s.chunks| ==> s.chunks[k] != []
    decreases |files|
  {
    if files == [] then Stream(r, [])
    else
      var first := ReadNew(r, files[0]);
      var rest := ReadAll(first.reader, files[1..]);
      Stream(rest.reader, Emitted(first) + rest.chunks)
  }

  /** The file only grows: every existing snapshot extends `base` and the
      ones before it. */
  predicate AppendOnly(base: string, files: seq<Option<string>>)
    decreases |files|
  {
    files == [] ||
    if files[0].None? then AppendOnly(base, files[1..])
    else base <= files[0].value && AppendOnly(files[0].value, files[1..])
  }

  /** The last existing snapshot, or `base` when there is none. */
  function Latest(base: string, files: seq<Option<string>>): string
    decreases |files|
  {
    if files == [] then base
    else Latest(if files[0].Some? then files[0].value else base, files[1..])
  }

  /** On a file that only grows, the dialog receives every character
      exactly once and in order: what was already read followed by all the
      chunks emitted is the latest snapshot, and the position is its end. */
  lemma {:induction false} StreamIsFaithful(base: string, files: seq<Option<string>>)
    requires AppendOnly(base, files)
    ensures base + Concat(ReadAll(Reader(|base|), files).chunks) == Latest(base, files)
    ensures ReadAll(Reader(|base|), files).reader.position == |Latest(base, files)|
    decreases |files|
  {
    if files != [] {
      var next := if files[0].Some? then files[0].value else base;
      var head := Emitted(ReadNew(Reader(|base|), files[0]));
      var rest := ReadAll(Reader(|next|), files[1..]);
      StreamUnfold(base, files);
      ReadStep(base, files[0]);
      StreamIsFaithful(next, files[1..]);
      calc {
        base + Concat(head + rest.chunks);
        == { ConcatAppend(head, rest.chunks); }
        base + (Concat(head) + Concat(rest.chunks));
        ==
        (base + Concat(head)) + Concat(rest.chunks);
        ==
        next + Concat(rest.chunks);
      }
    }
  }

  /** One pass, then the rest: the rest starts from the file just seen. */
  lemma StreamUnfold(base: string, files: seq<Option<string>>)
    requires files != [] && AppendOnly(base, files)
    ensures var next := if files[0].Some? then files[0].value else base;
      && (files[0].Some? ==> base <= files[0].value)
      && AppendOnly(next, files[1..])
      && Latest(base, files) == Latest(next, files[1..])
      && var first := ReadNew(Reader(|base|), files[0]);
         var rest := ReadAll(first.reader, files[1..]);
         ReadAll(Reader(|base|), files) == Stream(rest.reader, Emitted(first) + rest.chunks)
  {
  }

  /** The chunks one pass emits, as a list. */
  function Emitted(read: Read): seq<string> {
    if read.chunk.Some? then [read.chunk.value] else []
  }

  /** One pass over a file that extends what was read: what was read and
      what is emitted make up the file, and the position is its end. */
  lemma ReadStep(base: string, file: Option<string>)
    requires file.Some? ==> base <= file.value
    ensures var next := if file.Some? then file.value else base;
      && ReadNew(Reader(|base|), file).reader == Reader(|next|)
      && base + Concat(Emitted(ReadNew(Reader(|base|), file))) == next
  {
    var read := ReadNew(Reader(|base|), file);
    if read.chunk.Some? {
      assert Concat(Emitted(read)) == read.chunk.value + Concat([]);
    } else {
      assert base + Concat(Emitted(read)) == base;
    }
  }

  /** From a fresh reader, the chunks put together are the latest file. */
  lemma FreshStreamIsFaithful(files: seq<Option<string>>)
    requires AppendOnly([], files)
    ensures Concat(ReadAll(InitialReader, files).chunks) == Latest([], files)
  {
    StreamIsFaithful([], files);
    assert [] + Concat(ReadAll(InitialReader, files).chunks) == Concat(ReadAll(InitialReader, files).chunks);
  }
}
