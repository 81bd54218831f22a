/**
 The interactive loop: each input line is parsed and run against one
 `FileSystem`. The input stream is a finite sequence of lines; the loop
 ends on `exit`, on an `rd` line too short for `substr(5)` (the uncaught
 exception ends the process), or when the lines run out.
 */
module Shell {
  import opened Optional
  import opened FileTable
  import opened Commands

  /** Why the loop stopped. */
  datatype Halt = ExitCommand | OutOfRange | EndOfInput

  /** What one line produces, in place of the text the program prints. */
  datatype Response =
    | Quiet                       // a file was created; nothing is printed
    | Contents(file: File)        // "Content of <name>: <content>"
    | FileNotFound
    | Listing(names: seq<string>) // one name per line
    | InvalidFormat               // a create line with fewer than two spaces
    | UnknownCommand              // followed by the help text
    | Stopped(why: Halt)

  /** The state a session ends in: the root table, why it stopped and how
      many lines it read. */
  datatype Session = Session(files: map<string, File>, halt: Halt, consumed: nat)

  /** The effect of a command on the root table: only a create changes it. */
  function Apply(files: map<string, File>, c: Command): (r: map<string, File>)
    ensures files.Keys <= r.Keys
    ensures forall n :: n in files && !(c.Create? && n == c.name) ==> r[n] == files[n]
    ensures c.Create? ==> r.Keys == files.Keys + {c.name} && r[c.name] == File(c.name, c.content)
    ensures !c.Create? ==> r == files
    ensures WellNamed(files) ==> WellNamed(r)
  {
    if c.Create? then Upsert(files, c.name, c.content) else files
  }

  /** The line ends the loop. */
  predicate Stops(line: string)
  {
    Parse(line) == Exit || Parse(line) == ReadOutOfRange
  }

  /** The whole session over `lines`, starting from `files`. */
  function Replay(files: map<string, File>, lines: seq<string>): (s: Session)
    decreases |lines|
    ensures s.consumed <= |lines|
    ensures s.consumed == 0 <==> lines == []
  {
    if lines == [] then Session(files, EndOfInput, 0)
    else match Parse(lines[0])
      case Exit => Session(files, ExitCommand, 1)
      case ReadOutOfRange => Session(files, OutOfRange, 1)
      case c =>
        var rest := Replay(Apply(files, c), lines[1..]);
        rest.(consumed := rest.consumed + 1)
  }

  /** The loop reads up to and including the first stopping line, and reads
      everything only when no line stops it; the halt reason names the
      stopping line: `exit`, or an `rd` line too short for `substr(5)`. */
  lemma {:induction false} ReplayStopsAtFirst(files: map<string, File>, lines: seq<string>)
    ensures var s := Replay(files, lines);
      && s.consumed <= |lines|
      && (forall i :: 0 <= i < s.consumed - 1 ==> !Stops(lines[i]))
      && (s.halt == EndOfInput <==> s.consumed == |lines| && forall i :: 0 <= i < |lines| ==> !Stops(lines[i]))
      && (s.halt != EndOfInput ==> 1 <= s.consumed && Stops(lines[s.consumed - 1]))
      && (s.halt == ExitCommand ==> 1 <= s.consumed && lines[s.consumed - 1] == "exit")
      && (s.halt == OutOfRange ==> 1 <= s.consumed && Parse(lines[s.consumed - 1]) == ReadOutOfRange)
    decreases |lines|
  {
    if lines != [] && !Stops(lines[0]) {
      var c := Parse(lines[0]);
      ReplayStopsAtFirst(Apply(files, c), lines[1..]);
      var rest := Replay(Apply(files, c), lines[1..]);
      assert Replay(files, lines) == rest.(consumed := rest.consumed + 1);
      forall i | 1 <= i < |lines| ensures lines[i] == lines[1..][i - 1] {
      }
      if rest.halt == EndOfInput {
        forall i | 0 <= i < |lines| ensures !Stops(lines[i]) {
          if i > 0 { assert lines[i] == lines[1..][i - 1]; }
        }
      }
    }
  }

  /** Every session keeps each entry stored under its own name. */
  lemma {:induction false} ReplayWellNamed(files: map<string, File>, lines: seq<string>)
    requires WellNamed(files)
    ensures WellNamed(Replay(files, lines).files)
    decreases |lines|
  {
    if lines != [] && !Stops(lines[0]) {
      ReplayWellNamed(Apply(files, Parse(lines[0])), lines[1..]);
    }
  }

  /** No file is ever removed in a session: names only accumulate. */
  lemma {:induction false} ReplayKeepsNames(files: map<string, File>, lines: seq<string>)
    ensures files.Keys <= Replay(files, lines).files.Keys
    decreases |lines|
  {
    if lines != [] && !Stops(lines[0]) {
      ReplayKeepsNames(Apply(files, Parse(lines[0])), lines[1..]);
    }
  }

  /** A session in which no line the loop reads is a well-formed create
      leaves the table exactly as it was (lines after the stopping line are
      never read): reads, listings, malformed and unknown lines change
      nothing. */
  lemma {:induction false} ReplayWithoutCreate(files: map<string, File>, lines: seq<string>)
    requires forall i :: 0 <= i < Replay(files, lines).consumed ==> !Parse(lines[i]).Create?
    ensures Replay(files, lines).files == files
    decreases |lines|
  {
    if lines != [] && !Stops(lines[0]) {
      assert !Parse(lines[0]).Create?;
      var rest := Replay(files, lines[1..]);
      assert Replay(files, lines) == rest.(consumed := rest.consumed + 1);
      forall i | 0 <= i < rest.consumed ensures !Parse(lines[1..][i]).Create? {
        assert lines[1..][i] == lines[i + 1];
      }
      ReplayWithoutCreate(files, lines[1..]);
    }
  }

  /** After a well-formed create line, looking up its name in the table
      yields exactly that name and content. */
  lemma CreateThenRead(files: map<string, File>, verb: string, name: string, content: string)
    requires ' ' !in verb && ' ' !in name
    requires Text.HasPrefix(verb, "cr")
    ensures var line := verb + [' '] + name + [' '] + content;
      Lookup(Apply(files, Parse(line)), name) == Some(File(name, content))
  {
    var line := verb + [' '] + name + [' '] + content;
    SplitCreateJoin(verb, name, content);
    assert line[..2] == verb[..2];
    assert line != "exit" by { assert line[0] == 'c'; }
    assert Parse(line) == Create(name, content);
  }

  /** One pass of the loop body. */
  method Execute(fs: FileSystem, line: string) returns (r: Response)
    requires fs.Valid()
    modifies fs.root
    ensures fs.Valid()
    ensures fs.root.files == Apply(old(fs.root.files), Parse(line))
    ensures r.Stopped? <==> Stops(line)
    ensures r == Stopped(ExitCommand) <==> line == "exit"
    ensures r == Stopped(OutOfRange) <==> Parse(line) == ReadOutOfRange
    ensures Parse(line).Create? ==> r == Quiet
    ensures Parse(line) == MalformedCreate ==> r == InvalidFormat
    ensures Parse(line).Read? ==>
      r == match Lookup(old(fs.root.files), Parse(line).name)
           case Some(f) => Contents(f)
           case None => FileNotFound
    ensures Parse(line) == List <==> r.Listing?
    ensures r.Listing? ==> multiset(r.names) == multiset(old(fs.root.files).Keys)
    ensures Parse(line) == Unknown <==> r == UnknownCommand
  {
    match Parse(line)
    case Exit =>
      r := Stopped(ExitCommand);
    case Create(name, content) =>
      fs.CreateFile(name, content);
      r := Quiet;
    case MalformedCreate =>
      r := InvalidFormat;
    case Read(name) =>
      var f := fs.ReadFile(name);
      r := if f.Some? then Contents(f.value) else FileNotFound;
    case ReadOutOfRange =>
      r := Stopped(OutOfRange);
    case List =>
      var names := fs.ListFiles();
      r := Listing(names);
    case Unknown =>
      r := UnknownCommand;
  }

  /** The loop over the input lines, run against `fs`. */
  method Run(fs: FileSystem, lines: seq<string>) returns (halt: Halt, consumed: nat)
    requires fs.Valid()
    modifies fs.root
    ensures fs.Valid()
    ensures Replay(old(fs.root.files), lines) == Session(fs.root.files, halt, consumed)
  {
    var i := 0;
    while i < |lines|
      invariant 0 <= i <= |lines|
      invariant fs.Valid()
      invariant var s := Replay(fs.root.files, lines[i..]);
        Replay(old(fs.root.files), lines) == s.(consumed := s.consumed + i)
    {
      assert lines[i..][0] == lines[i] && lines[i..][1..] == lines[i + 1..];
      var r := Execute(fs, lines[i]);
      if r.Stopped? {
        return r.why, i + 1;
      }
      i := i + 1;
    }
    return EndOfInput, |lines|;
  }
}
