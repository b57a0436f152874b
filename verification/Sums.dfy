/** The checksum file of a pack: reading it, and the format in which sha256sum prints it. */
module Sums {
  import opened Results
  import opened Text
  import opened Collections

  /** An io.Reader: the text it delivers, and whether it then breaks instead of ending. */
  datatype Reader = Reader(text: string, broken: bool)

  datatype SumsError = ReadFailed | InvalidEntry(line: string)

  // ----- what a checksum file means -----

  function NewlineAt(s: string): (n: nat)
    ensures n <= |s|
    ensures forall i | 0 <= i < n :: s[i] != '\n'
    ensures n < |s| ==> s[n] == '\n'
  {
    if s == "" || s[0] == '\n' then 0 else 1 + NewlineAt(s[1..])
  }

  /** The newline-terminated lines of a text, without their newlines. */
  function Terminated(text: string): seq<string>
    decreases |text|
  {
    var n := NewlineAt(text);
    if n == |text| then [] else [text[..n]] + Terminated(text[n + 1..])
  }

  predicate GoodLine(line: string) {
    line == "" || |Fields(line)| == 2
  }

  predicate AllGood(lines: seq<string>) {
    forall i | 0 <= i < |lines| :: GoodLine(lines[i])
  }

  /** The entries of the good lines, later ones overriding earlier ones. */
  function Table(lines: seq<string>): map<string, string> {
    if lines == [] then map[] else Table(lines[..|lines| - 1]) + Entry(lines[|lines| - 1])
  }

  function Entry(line: string): map<string, string> {
    var items := Fields(line);
    if |items| == 2 then map[items[1] := items[0]] else map[]
  }

  function Parse(text: string): Option<map<string, string>> {
    var lines := Terminated(text);
    if AllGood(lines) then Some(Table(lines)) else None
  }

  lemma TableAppend(lines: seq<string>, line: string)
    ensures Table(lines + [line]) == Table(lines) + Entry(line)
  {
    assert (lines + [line])[..|lines|] == lines;
  }

  // ----- the reading loop -----

  method SumsFromReader(r: Reader) returns (res: Result<map<string, string>, SumsError>)
    ensures res.Ok? <==> AllGood(Terminated(r.text)) && !r.broken
    ensures res.Ok? ==> res.value == Table(Terminated(r.text))
    ensures res.Err? && res.error.ReadFailed? ==> AllGood(Terminated(r.text)) && r.broken
    ensures res.Err? && res.error.InvalidEntry? ==>
              exists i :: 0 <= i < |Terminated(r.text)| && Terminated(r.text)[i] == res.error.line
                          && !GoodLine(res.error.line) && AllGood(Terminated(r.text)[..i])
  {
    var sums: map<string, string> := map[];
    var rest := r.text;
    ghost var done: seq<string> := [];
    while true
      invariant Terminated(r.text) == done + Terminated(rest)
      invariant AllGood(done) && sums == Table(done)
      decreases |rest|
    {
      var n := NewlineAt(rest);
      if n == |rest| {
        EmptyTail(done);
        if r.broken {
          return Err(ReadFailed);
        }
        break;
      }
      var line := rest[..n];
      rest := rest[n + 1..];
      Advance(Terminated(r.text), done, line, Terminated(rest));
      AllGoodConcat(done, [line]);
      TableAppend(done, line);
      done := done + [line];
      if line == "" {
        OverrideOne(sums, line, line);
        continue;
      }
      var items := Fields(line);
      if |items| != 2 {
        return Err(InvalidEntry(line));
      }
      OverrideOne(sums, items[1], items[0]);
      sums := sums[items[1] := items[0]];
    }
    return Ok(sums);
  }

  // ----- properties of the format -----

  predicate WholeLines(text: string) {
    text == "" || text[|text| - 1] == '\n'
  }

  lemma TerminatedStep(line: string, rest: string)
    requires forall i | 0 <= i < |line| :: line[i] != '\n'
    ensures Terminated(line + ['\n'] + rest) == [line] + Terminated(rest)
  {
    var text := line + ['\n'] + rest;
    assert forall i | 0 <= i < |line| :: text[i] == line[i];
    assert text[|line|] == '\n';
    assert NewlineAt(text) == |line|;
    assert text[..|line|] == line && text[|line| + 1..] == rest;
  }

  lemma {:induction false} TerminatedConcat(a: string, b: string)
    requires WholeLines(a)
    ensures Terminated(a + b) == Terminated(a) + Terminated(b)
    decreases |a|
  {
    if a == "" {
      assert a + b == b;
    } else {
      var n := NewlineAt(a);
      assert n < |a| && a[n] == '\n';
      SplitAt(a, b, n);
      TerminatedStep(a[..n], a[n + 1..] + b);
      TerminatedConcat(a[n + 1..], b);
      AppendAssoc([a[..n]], Terminated(a[n + 1..]), Terminated(b));
    }
  }

  lemma AllGoodConcat(x: seq<string>, y: seq<string>)
    ensures AllGood(x + y) <==> AllGood(x) && AllGood(y)
  {
    if AllGood(x + y) {
      assert forall i | 0 <= i < |x| :: x[i] == (x + y)[i];
      assert forall i | 0 <= i < |y| :: y[i] == (x + y)[|x| + i];
    }
  }

  lemma {:induction false} TableConcat(x: seq<string>, y: seq<string>)
    ensures Table(x + y) == Table(x) + Table(y)
    decreases |y|
  {
    if y == [] {
      assert x + y == x;
    } else {
      SplitLast(x, y);
      TableConcat(x, y[..|y| - 1]);
      TableAppend(x + y[..|y| - 1], y[|y| - 1]);
      OverrideAssoc(Table(x), Table(y[..|y| - 1]), Entry(y[|y| - 1]));
    }
  }

  /** Reading two files of whole lines one after the other overrides the first table by the second. */
  lemma ParseConcat(a: string, b: string)
    requires WholeLines(a)
    ensures Parse(a + b) ==
            if Parse(a).Some? && Parse(b).Some? then Some(Parse(a).value + Parse(b).value) else None
  {
    TerminatedConcat(a, b);
    AllGoodConcat(Terminated(a), Terminated(b));
    TableConcat(Terminated(a), Terminated(b));
  }

  /** A last line without a newline has no effect, whatever it says. */
  lemma UnterminatedIgnored(a: string, tail: string)
    requires WholeLines(a) && '\n' !in tail
    ensures Parse(a + tail) == Parse(a)
  {
    TerminatedConcat(a, tail);
    assert Terminated(tail) == [];
    assert Terminated(a) + [] == Terminated(a);
  }

  /**
   Reading fails exactly when some terminated line is not empty and is not two words set off by
   white space; a line of white space alone is such a line.
   */
  lemma ParseFailsIff(text: string)
    ensures Parse(text).None? <==>
            exists line :: line in Terminated(text) && line != "" && forall hash, path :: !TwoWords(line, hash, path)
  {
    hide Fields, TwoWords;
    forall line ensures GoodLine(line) <==> line == "" || exists hash, path :: TwoWords(line, hash, path) {
      GoodLineIff(line);
    }
    if Parse(text).None? {
      var i :| 0 <= i < |Terminated(text)| && !GoodLine(Terminated(text)[i]);
      assert Terminated(text)[i] in Terminated(text);
    }
  }

  lemma GoodLineIff(line: string)
    ensures GoodLine(line) <==> line == "" || exists hash, path :: TwoWords(line, hash, path)
  {
    hide Fields, TwoWords;
    if |Fields(line)| == 2 {
      FieldsIffTwoWords(line, Fields(line)[0], Fields(line)[1]);
    }
    if hash, path :| TwoWords(line, hash, path) {
      FieldsIffTwoWords(line, hash, path);
    }
  }

  /** Does this line record a checksum for the path? */
  predicate Records(line: string, path: string) {
    line != "" && |Fields(line)| == 2 && Fields(line)[1] == path
  }

  /** A path is in the table exactly when some line records it, and its last line wins. */
  lemma {:induction false} TableLookup(lines: seq<string>, path: string)
    requires AllGood(lines)
    ensures path in Table(lines) <==> exists i :: 0 <= i < |lines| && Records(lines[i], path)
    ensures forall i | 0 <= i < |lines| && Records(lines[i], path)
                       && (forall j | i < j < |lines| :: !Records(lines[j], path)) ::
              path in Table(lines) && Table(lines)[path] == Fields(lines[i])[0]
  {
    hide Fields, Records, GoodLine, Entry;
    if lines != [] {
      var init, last := lines[..|lines| - 1], lines[|lines| - 1];
      assert GoodLine(last);
      TableLookup(init, path);
      EntryLookup(last, path);
      assert Records(last, path) ==> Records(lines[|lines| - 1], path);
      assert forall i | 0 <= i < |init| :: lines[i] == init[i];
      assert path in Table(init) ==> exists i :: 0 <= i < |lines| && Records(lines[i], path);
    }
  }

  lemma EntryLookup(line: string, path: string)
    requires GoodLine(line)
    ensures path in Entry(line) <==> Records(line, path)
    ensures Records(line, path) ==> Entry(line)[path] == Fields(line)[0]
  {
  }

  // ----- the printed form -----

  /** One line of sha256sum output for a path without white space or backslashes. */
  function SumLine(hash: string, path: string): string {
    hash + "  " + path + "\n"
  }

  function PrintSums(sums: map<string, string>, order: seq<string>): (text: string)
    requires forall p | p in order :: p in sums
    ensures WholeLines(text)
  {
    if order == [] then ""
    else
      var last := order[|order| - 1];
      PrintSums(sums, order[..|order| - 1]) + SumLine(sums[last], last)
  }

  lemma PrintSumsStep(sums: map<string, string>, order: seq<string>, i: nat)
    requires i < |order| && forall p | p in order :: p in sums
    ensures PrintSums(sums, order[..i + 1]) == PrintSums(sums, order[..i]) + SumLine(sums[order[i]], order[i])
  {
    assert order[..i + 1][..i] == order[..i];
  }

  lemma ParseSumLine(hash: string, path: string)
    requires Word(hash) && Word(path)
    ensures Parse(SumLine(hash, path)) == Some(map[path := hash])
  {
    var line := hash + "  " + path;
    var text := SumLine(hash, path);
    FieldsPair(hash, "  ", path);
    assert text == line + ['\n'] + "";
    TerminatedStep(line, "");
    assert Terminated(text) == [line];
    TableOne(line);
  }

  lemma TableOne(line: string)
    ensures Table([line]) == Entry(line)
  {
    assert [line] == [] + [line];
    TableAppend([], line);
  }

  lemma {:induction false} ParsePrinted(sums: map<string, string>, order: seq<string>)
    requires forall p | p in order :: p in sums && Word(p) && Word(sums[p])
    ensures Parse(PrintSums(sums, order)) == Some(Restrict(sums, order))
  {
    if order == [] {
      assert Terminated("") == [];
    } else {
      var init, last := order[..|order| - 1], order[|order| - 1];
      ParsePrinted(sums, init);
      ParseSumLine(sums[last], last);
      ParseConcat(PrintSums(sums, init), SumLine(sums[last], last));
      RestrictAppend(sums, order);
    }
  }

  /** Printing a table in any order, even with repetitions, and reading it back gives the same table. */
  lemma SumsRoundTrip(sums: map<string, string>, order: seq<string>)
    requires forall p :: p in order <==> p in sums
    requires forall p | p in sums :: Word(p) && Word(sums[p])
    ensures Parse(PrintSums(sums, order)) == Some(sums)
  {
    ParsePrinted(sums, order);
    assert Restrict(sums, order) == sums;
  }
}
