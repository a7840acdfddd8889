/** The line-delimited stream: the backend's printer and the dashboard's chunked reader.

The printer writes one JSON text and a newline per payload.  The reader sees the stream cut
into chunks anywhere, and hands each line on as soon as its newline has arrived.
 */
module Ndjson {
  import opened Collections
  import opened JsonText
  import opened Options

  /** A payload is an object. */
  ghost predicate Payload(j: Json) { j.Object? && Plain(j) }

  ghost predicate Payloads(ps: seq<Json>) { forall i :: 0 <= i < |ps| ==> Payload(ps[i]) }

  /** The stream for a sequence of payloads. */
  function Print(ps: seq<Json>): string {
    if ps == [] then "" else Dumps(ps[0]) + "\n" + Print(ps[1..])
  }

  function Texts(ps: seq<Json>): (lines: seq<string>)
    ensures |lines| == |ps| && forall i :: 0 <= i < |ps| ==> lines[i] == Dumps(ps[i])
  {
    seq(|ps|, i requires 0 <= i < |ps| => Dumps(ps[i]))
  }

  // ----- splitting

  /** The pieces of a text between its newlines: always at least one. */
  function Split(s: string): (pieces: seq<string>)
    ensures |pieces| > 0
  {
    if s == [] then [""]
    else
      Push(s[0], Split(s[1..]))
  }

  /** One more character in front. */
  function Push(c: char, pieces: seq<string>): (pushed: seq<string>)
    requires |pieces| > 0
    ensures |pushed| > 0
  {
    if c == '\n' then [""] + pieces else [[c] + pieces[0]] + pieces[1..]
  }

  function Join(pieces: seq<string>): string
    requires |pieces| > 0
  {
    if |pieces| == 1 then pieces[0] else pieces[0] + "\n" + Join(pieces[1..])
  }

  ghost predicate Lines(pieces: seq<string>) { forall i :: 0 <= i < |pieces| ==> OneLine(pieces[i]) }

  /** Splitting loses nothing, and no piece holds a newline. */
  lemma {:induction false} SplitJoins(s: string)
    ensures Join(Split(s)) == s && Lines(Split(s))
  {
    if s != [] {
      SplitJoins(s[1..]);
      PushJoins(s[0], Split(s[1..]));
      assert s == [s[0]] + s[1..];
    }
  }

  lemma PushJoins(c: char, pieces: seq<string>)
    requires |pieces| > 0 && Lines(pieces)
    ensures Join(Push(c, pieces)) == [c] + Join(pieces) && Lines(Push(c, pieces))
  {
    if c == '\n' {
      EmptyFirst(pieces);
    } else {
      FirstGrows(c, pieces);
    }
    PushLines(c, pieces);
  }

  lemma PushLines(c: char, pieces: seq<string>)
    requires |pieces| > 0 && Lines(pieces)
    ensures Lines(Push(c, pieces))
  {
    var pushed := Push(c, pieces);
    forall i | 0 <= i < |pushed| ensures OneLine(pushed[i]) {
      if c == '\n' {
        assert i > 0 ==> pushed[i] == pieces[i - 1];
      } else {
        assert i > 0 ==> pushed[i] == pieces[i];
      }
    }
  }

  lemma EmptyFirst(pieces: seq<string>)
    requires |pieces| > 0
    ensures Join([""] + pieces) == "\n" + Join(pieces)
  {
    assert ([""] + pieces)[1..] == pieces;
    assert "" + "\n" == "\n";
  }

  /** A character in front of the first piece is one in front of the whole. */
  lemma FirstGrows(c: char, pieces: seq<string>)
    requires |pieces| > 0
    ensures Join([[c] + pieces[0]] + pieces[1..]) == [c] + Join(pieces)
  {
    var first, rest := pieces[0], pieces[1..];
    assert ([[c] + first] + rest)[1..] == rest;
    if rest != [] {
      FrontOfThree(c, first, Join(rest));
    }
  }

  lemma FrontOfThree(c: char, first: string, rest: string)
    ensures [c] + first + "\n" + rest == [c] + (first + "\n" + rest)
  {
    Associative([c] + first, "\n", rest);
    Associative(first, "\n", rest);
    Associative([c], first, "\n" + rest);
  }

  lemma {:induction false} SplitLine(line: string, s: string)
    requires OneLine(line)
    ensures Split(line + "\n" + s) == [line] + Split(s)
    ensures Split(line) == [line]
  {
    if line == [] {
      assert line + "\n" + s == "\n" + s;
    } else {
      SplitLine(line[1..], s);
      var text := line + "\n" + s;
      assert text[1..] == line[1..] + "\n" + s;
      assert text[0] != '\n';
      assert ([line[1..]] + Split(s))[1..] == Split(s);
      assert line == [line[0]] + line[1..];
    }
  }

  /** There is only one way to cut a text at its newlines. */
  lemma {:induction false} SplitIsUnique(pieces: seq<string>)
    requires |pieces| > 0 && Lines(pieces)
    ensures Split(Join(pieces)) == pieces
  {
    if |pieces| == 1 {
      SplitLine(pieces[0], "");
    } else {
      SplitIsUnique(pieces[1..]);
      SplitLine(pieces[0], Join(pieces[1..]));
      assert pieces == [pieces[0]] + pieces[1..];
    }
  }

  function Complete(pieces: seq<string>): seq<string>
    requires |pieces| > 0
  {
    pieces[..|pieces| - 1]
  }

  function Rest(pieces: seq<string>): string
    requires |pieces| > 0
  {
    pieces[|pieces| - 1]
  }

  /** Text that arrives later changes only the last piece. */
  lemma {:induction false} SplitAppend(a: string, b: string)
    ensures Split(a + b) == Complete(Split(a)) + Split(Rest(Split(a)) + b)
  {
    if a == [] {
      assert a + b == b;
    } else {
      SplitAppend(a[1..], b);
      assert (a + b)[1..] == a[1..] + b;
      PushAppend(a[0], Split(a[1..]), b);
    }
  }

  lemma PushAppend(c: char, pieces: seq<string>, b: string)
    requires |pieces| > 0
    ensures Push(c, Complete(pieces) + Split(Rest(pieces) + b)) ==
            Complete(Push(c, pieces)) + Split(Rest(Push(c, pieces)) + b)
  {
    if c != '\n' && |pieces| == 1 {
      var line := [c] + pieces[0] + b;
      assert line[1..] == pieces[0] + b;
      assert Complete(pieces) + Split(pieces[0] + b) == Split(pieces[0] + b);
    } else {
      PushBefore(c, pieces, Split(Rest(pieces) + b));
    }
  }

  lemma PushBefore(c: char, pieces: seq<string>, more: seq<string>)
    requires |pieces| > 0 && |more| > 0 && (c == '\n' || |pieces| > 1)
    ensures Push(c, Complete(pieces) + more) == Complete(Push(c, pieces)) + more
    ensures Rest(Push(c, pieces)) == Rest(pieces)
  {
    if c != '\n' {
      assert (Complete(pieces) + more)[1..] == Complete(pieces)[1..] + more;
    }
  }

  // ----- the reader

  /** Code points the browser's trim removes. */
  predicate Space(c: char) {
    var n := c as int;
    || 9 <= n <= 13 || n == 0x20 || n == 0xa0 || n == 0x1680 || 0x2000 <= n <= 0x200a
    || n == 0x2028 || n == 0x2029 || n == 0x202f || n == 0x205f || n == 0x3000 || n == 0xfeff
  }

  predicate Blank(s: string) { forall i :: 0 <= i < |s| ==> Space(s[i]) }

  function NonBlank(lines: seq<string>): seq<string> {
    if lines == [] then []
    else if Blank(lines[|lines| - 1]) then NonBlank(lines[..|lines| - 1])
    else NonBlank(lines[..|lines| - 1]) + [lines[|lines| - 1]]
  }

  lemma {:induction false} NonBlankConcat(a: seq<string>, b: seq<string>)
    ensures NonBlank(a + b) == NonBlank(a) + NonBlank(b)
  {
    if b == [] {
      assert a + b == a;
    } else {
      var n := |b| - 1;
      NonBlankConcat(a, b[..n]);
      assert (a + b)[..|a + b| - 1] == a + b[..n];
    }
  }

  function Flat(chunks: seq<string>): string {
    if chunks == [] then "" else Flat(chunks[..|chunks| - 1]) + chunks[|chunks| - 1]
  }

  /** The lines handed on once a text has arrived and the stream is still open. */
  function Arrived(s: string): seq<string> { NonBlank(Complete(Split(s))) }

  method EmitLines(lines: seq<string>) returns (calls: seq<string>)
    ensures calls == NonBlank(lines)
  {
    calls := [];
    for i := 0 to |lines|
      invariant calls == NonBlank(lines[..i])
    {
      assert lines[..i + 1][..i] == lines[..i];
      if !Blank(lines[i]) {
        calls := calls + [lines[i]];
      }
    }
    assert lines[..|lines|] == lines;
  }

  /** The reader over any chunking: what it hands on, in order, is the non-blank pieces of the
      whole text; and after each chunk, those already ended by a newline. */
  method PostNdjson(chunks: seq<string>) returns (calls: seq<string>, progress: seq<nat>)
    ensures calls == NonBlank(Split(Flat(chunks)))
    ensures progress == Progress(chunks)
  {
    calls, progress := [], [];
    var held := "";
    for i := 0 to |chunks|
      invariant calls == Arrived(Flat(chunks[..i])) && held == Rest(Split(Flat(chunks[..i])))
      invariant progress == Progress(chunks[..i])
    {
      assert chunks[..i + 1][..i] == chunks[..i];
      ChunkArrives(Flat(chunks[..i]), chunks[i]);
      var lines := Split(held + chunks[i]);
      held := Rest(lines);
      var more := EmitLines(Complete(lines));
      calls := calls + more;
      progress := progress + [|calls|];
    }
    assert chunks[..|chunks|] == chunks;
    LastLine(Flat(chunks));
    if !Blank(held) {
      calls := calls + [held];
    }
  }

  /** How many calls have been made after each chunk: one for each line already ended. */
  function Progress(chunks: seq<string>): seq<nat> {
    if chunks == [] then [] else Progress(chunks[..|chunks| - 1]) + [|Arrived(Flat(chunks))|]
  }

  /** What is held at the end is the last piece. */
  lemma LastLine(text: string)
    ensures
      var held := Rest(Split(text));
      NonBlank(Split(text)) == Arrived(text) + if Blank(held) then [] else [held]
  {
    var pieces := Split(text);
    assert pieces == Complete(pieces) + [Rest(pieces)];
    NonBlankConcat(Complete(pieces), [Rest(pieces)]);
    NonBlankOne(Rest(pieces));
  }

  lemma NonBlankOne(s: string)
    ensures NonBlank([s]) == if Blank(s) then [] else [s]
  {
    assert [s][..0] == [];
  }

  lemma ChunkArrives(before: string, chunk: string)
    ensures
      var lines := Split(Rest(Split(before)) + chunk);
      && Arrived(before + chunk) == Arrived(before) + NonBlank(Complete(lines))
      && Rest(Split(before + chunk)) == Rest(lines)
  {
    var lines := Split(Rest(Split(before)) + chunk);
    SplitAppend(before, chunk);
    assert Complete(Complete(Split(before)) + lines) == Complete(Split(before)) + Complete(lines);
    NonBlankConcat(Complete(Split(before)), Complete(lines));
  }

  // ----- the reader undoes the printer

  lemma {:induction false} PrintSplits(ps: seq<Json>)
    requires Payloads(ps)
    ensures Split(Print(ps)) == Texts(ps) + [""]
  {
    if ps != [] {
      PrintSplits(ps[1..]);
      DumpsOneLine(ps[0]);
      SplitLine(Dumps(ps[0]), Print(ps[1..]));
      assert Texts(ps) == [Dumps(ps[0])] + Texts(ps[1..]);
    }
  }

  lemma {:induction false} TextsNonBlank(ps: seq<Json>)
    requires Payloads(ps)
    ensures NonBlank(Texts(ps)) == Texts(ps)
  {
    if ps != [] {
      var n := |ps| - 1;
      TextsNonBlank(ps[..n]);
      assert Texts(ps)[..n] == Texts(ps[..n]);
      assert Dumps(ps[n])[0] == '{';
    }
  }

  /** Printed, cut into chunks in any way and read back: one call per payload, in order, each
      with the text that was printed for it, which parses to that payload. */
  lemma ReaderUndoesPrinter(ps: seq<Json>, chunks: seq<string>)
    requires Payloads(ps) && Flat(chunks) == Print(ps)
    ensures
      var calls := NonBlank(Split(Flat(chunks)));
      && calls == Texts(ps) && |calls| == |ps|
      && forall i :: 0 <= i < |ps| ==> Parse(calls[i]) == Some(ps[i])
  {
    PrintSplits(ps);
    NonBlankConcat(Texts(ps), [""]);
    NonBlankOne("");
    TextsNonBlank(ps);
    forall i | 0 <= i < |ps| ensures Parse(Dumps(ps[i])) == Some(ps[i]) {
      ParseUndoesDumps(ps[i]);
    }
  }

  function Newlines(s: string): nat {
    if s == [] then 0 else (if s[0] == '\n' then 1 else 0) + Newlines(s[1..])
  }

  lemma {:induction false} PieceCount(s: string)
    ensures |Split(s)| == Newlines(s) + 1
  {
    if s != [] {
      PieceCount(s[1..]);
    }
  }

  /** However much of the stream has arrived, the calls made are the first payloads, one for
      each newline seen: nothing partial is handed on and nothing complete is held back. */
  lemma CallsKeepUp(ps: seq<Json>, arrived: string, coming: string)
    requires Payloads(ps) && arrived + coming == Print(ps)
    ensures Newlines(arrived) <= |ps| && Arrived(arrived) == Texts(ps[..Newlines(arrived)])
  {
    PrintSplits(ps);
    SplitAppend(arrived, coming);
    PieceCount(arrived);
    var k := Newlines(arrived);
    var pieces := Texts(ps) + [""];
    assert Complete(Split(arrived)) == pieces[..k];
    assert k <= |ps|;
    assert pieces[..k] == Texts(ps[..k]);
    TextsNonBlank(ps[..k]);
  }
}
