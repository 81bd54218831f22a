/**
 The line dispatcher of the interactive loop, as pure functions of the
 input line: exact `exit` and `ls`, prefixes `cr` and `rd`, the split of a
 create line at its first two spaces, and the read argument taken from
 index 5 onwards. A `char` stands for one byte of the C++ `std::string`.
 */
module Commands {
  import opened Optional
  import opened Text

  /** What one input line asks for. `MalformedCreate` is a `cr` line with
      fewer than two spaces; `ReadOutOfRange` is an `rd` line shorter than
      five bytes, on which `substr(5)` throws `std::out_of_range`. */
  datatype Command =
    | Exit
    | Create(name: string, content: string)
    | MalformedCreate
    | Read(name: string)
    | ReadOutOfRange
    | List
    | Unknown

  /** The largest `size_t`, which is also `std::string::npos`. */
  const SizeMax: nat := 0xFFFF_FFFF_FFFF_FFFF

  /** A search result as the `size_t` the C++ holds: `npos` when absent. */
  function AsSize(pos: Option<nat>): nat
  {
    if pos.None? then SizeMax else pos.value
  }

  /** Where the second search starts: `firstSpace + 1` in `size_t`
      arithmetic, that is modulo 2^64. A missing first space is `npos`, so
      the sum wraps round to 0 and the second search scans the whole line. */
  function SearchFrom(first: Option<nat>): (r: nat)
    ensures (first.Some? ==> first.value < SizeMax) ==> r == (AsSize(first) + 1) % (SizeMax + 1)
  {
    match first
    case None => 0
    case Some(i) => i + 1
  }

  /** The create line split at its first two spaces: the name lies strictly
      between them, the content is all that follows the second. */
  function SplitCreate(line: string): (c: Command)
    ensures c.Create? || c == MalformedCreate
    ensures c.Create? ==> ' ' !in c.name
    ensures c.Create? ==> |c.name| + |c.content| + 2 <= |line|
    ensures c.Create? ==> line[|line| - |c.content| ..] == c.content
    ensures c.Create? ==> line[|line| - |c.content| - 1] == ' '
  {
    var first := Find(line, ' ', 0);
    var second := Find(line, ' ', SearchFrom(first));
    if first.Some? && second.Some? then
      var name := line[first.value + 1 .. second.value];
      assert forall k :: 0 <= k < |name| ==> name[k] == line[first.value + 1 + k];
      Create(name, line[second.value + 1 ..])
    else
      MalformedCreate
  }

  /** The `rd` argument `substr(5)`: the suffix from index 5, or
      `ReadOutOfRange` where the C++ throws `std::out_of_range`. */
  function ReadArgument(line: string): (c: Command)
    ensures c.Read? || c == ReadOutOfRange
    ensures c.Read? <==> |line| >= 5
    ensures c.Read? ==> line == line[..5] + c.name
  {
    if |line| >= 5 then Read(line[5..]) else ReadOutOfRange
  }

  /** The if-chain of the loop body, in its order. */
  function Parse(line: string): (c: Command)
    ensures c == Exit <==> line == "exit"
    ensures c == List <==> line == "ls"
    ensures (c.Create? || c == MalformedCreate) ==> HasPrefix(line, "cr")
    ensures (c.Read? || c == ReadOutOfRange) ==> HasPrefix(line, "rd")
  {
    if line == "exit" then Exit
    else if HasPrefix(line, "cr") then SplitCreate(line)
    else if HasPrefix(line, "rd") then ReadArgument(line)
    else if line == "ls" then List
    else Unknown
  }

  /** Does the line contain at least two spaces? */
  ghost predicate TwoSpaces(line: string)
  {
    exists i, j :: 0 <= i < j < |line| && line[i] == ' ' && line[j] == ' '
  }

  /** A create line splits exactly when it holds at least two spaces. */
  lemma SplitCreateDefined(line: string)
    ensures SplitCreate(line).Create? <==> TwoSpaces(line)
  {
    var first := Find(line, ' ', 0);
    var second := Find(line, ' ', SearchFrom(first));
    if first.Some? && second.Some? {
      assert 0 <= first.value < second.value < |line|;
      assert line[first.value] == ' ' && line[second.value] == ' ';
    }
    if TwoSpaces(line) {
      var i, j :| 0 <= i < j < |line| && line[i] == ' ' && line[j] == ' ';
      assert first.Some?;
      if first.value < i {
        assert second.Some?;
      } else {
        assert second.Some?;
      }
    }
  }

  /** Round trip: a line made of a space-free verb, a space, a space-free
      name, a space and any content splits back into that name and content. */
  lemma {:induction false} SplitCreateJoin(verb: string, name: string, content: string)
    requires ' ' !in verb && ' ' !in name
    ensures SplitCreate(verb + [' '] + name + [' '] + content) == Create(name, content)
  {
    var line := verb + [' '] + name + [' '] + content;
    var i, j := |verb|, |verb| + 1 + |name|;
    assert line[i] == ' ' && line[j] == ' ';
    forall k | 0 <= k < i ensures line[k] != ' ' {
      assert line[k] == verb[k];
    }
    FindFirst(line, ' ', 0, i);
    forall k | i + 1 <= k < j ensures line[k] != ' ' {
      assert line[k] == name[k - i - 1];
    }
    FindFirst(line, ' ', i + 1, j);
    assert line[i + 1 .. j] == name;
    assert line[j + 1 ..] == content;
  }

  /** The converse: a line that splits is the verb before the first space,
      a space, the name, a space and the content, with no space in verb or
      name. */
  lemma SplitCreateParts(line: string)
    requires SplitCreate(line).Create?
    ensures var a := SplitCreate(line);
      var v := |line| - |a.content| - |a.name| - 2;
      0 <= v && ' ' !in line[..v] && ' ' !in a.name
      && line == line[..v] + [' '] + a.name + [' '] + a.content
  {
    var first := Find(line, ' ', 0);
    var second := Find(line, ' ', SearchFrom(first));
    var i, j := first.value, second.value;
    var a := SplitCreate(line);
    assert a.name == line[i + 1 .. j] && a.content == line[j + 1 ..];
    var v := |line| - |a.content| - |a.name| - 2;
    assert v == i;
    assert line == line[..i] + [' '] + line[i + 1 .. j] + [' '] + line[j + 1 ..];
    forall k | 0 <= k < i ensures line[..i][k] != ' ' {
      assert line[..i][k] == line[k];
    }
    forall k | 0 <= k < |a.name| ensures a.name[k] != ' ' {
      assert a.name[k] == line[i + 1 + k];
    }
  }

  /** The name may be empty: two adjacent spaces give the empty name. */
  lemma EmptyNameAccepted(content: string)
    ensures Parse("cr  " + content) == Create("", content)
  {
    ContentKeepsSpaces("", content);
    assert "cr " + "" + " " + content == "cr  " + content;
  }

  /** Whatever follows the second space, spaces included, is the content
      of a `cr <name> <content>` line. */
  lemma ContentKeepsSpaces(name: string, content: string)
    requires ' ' !in name
    ensures Parse("cr " + name + " " + content) == Create(name, content)
  {
    var line := "cr " + name + " " + content;
    assert line == "cr" + [' '] + name + [' '] + content;
    assert line[0] == 'c' && line[1] == 'r';
    assert HasPrefix(line, "cr");
    assert line != "exit";
    assert Parse(line) == SplitCreate(line);
    SplitCreateJoin("cr", name, content);
  }

  /** The dispatch order of the loop body: exact `exit` first, then the
      `cr` prefix, then the `rd` prefix, then exact `ls`, else unknown. */
  lemma ParseDispatch(line: string)
    ensures Parse(line) == Exit <==> line == "exit"
    ensures (Parse(line).Create? || Parse(line) == MalformedCreate)
            <==> line != "exit" && HasPrefix(line, "cr")
    ensures (Parse(line).Read? || Parse(line) == ReadOutOfRange)
            <==> line != "exit" && !HasPrefix(line, "cr") && HasPrefix(line, "rd")
    ensures Parse(line) == List <==> line == "ls"
    ensures Parse(line) == Unknown
            <==> line != "exit" && line != "ls" && !HasPrefix(line, "cr") && !HasPrefix(line, "rd")
  {
  }

  /** A `cr` line creates exactly when it holds two spaces, and then with
      the split's name and content. */
  lemma ParseCreate(line: string)
    requires line != "exit" && HasPrefix(line, "cr")
    ensures Parse(line).Create? <==> TwoSpaces(line)
    ensures Parse(line) == SplitCreate(line)
  {
    SplitCreateDefined(line);
  }

  /** An `rd` line reads the suffix from index 5, and throws when shorter
      than five bytes. */
  lemma ParseRead(line: string)
    requires HasPrefix(line, "rd")
    ensures |line| < 5 <==> Parse(line) == ReadOutOfRange
    ensures |line| >= 5 ==> Parse(line) == Read(line[5..])
  {
    assert line != "exit" by { assert line[0] == 'r'; }
    assert !HasPrefix(line, "cr") by { assert line[..2][0] == 'r'; }
  }

  /** `rd <name>` reads the name without its first two bytes, and a
      name shorter than two bytes makes `substr` throw. */
  lemma ReadSkipsTwo(name: string)
    ensures |name| >= 2 ==> Parse("rd " + name) == Read(name[2..])
    ensures |name| < 2 ==> Parse("rd " + name) == ReadOutOfRange
  {
    HasPrefixAppend("rd", " " + name);
    assert "rd " + name == "rd" + (" " + name);
    ParseRead("rd " + name);
    if |name| >= 2 {
      assert ("rd " + name)[5..] == name[2..];
    }
  }

  /** The help text's `read <filename>` and `list` are not recognised by the
      dispatcher, which tests for `rd` and `ls`. */
  lemma AdvertisedNamesUnknown(name: string)
    ensures Parse("read " + name) == Unknown
    ensures Parse("list") == Unknown
  {
    var line := "read " + name;
    assert line[1] == 'e';
    assert !HasPrefix(line, "rd") by { assert line[..2][1] == 'e'; }
    assert !HasPrefix(line, "cr") by { assert line[..2][0] == 'r'; }
    assert line != "exit" && line != "ls" by { assert line[0] == 'r'; }
    assert !HasPrefix("list", "rd") by { assert "list"[..2][0] == 'l'; }
    assert !HasPrefix("list", "cr") by { assert "list"[..2][0] == 'l'; }
  }
}
