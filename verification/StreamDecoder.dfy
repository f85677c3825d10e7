/** The incremental decoder of newline-delimited JSON streams in the TypeScript client. Parsing one line is a
    parameter; it may fail, as `JSON.parse` throws. */
module StreamDecoder {
  import opened Telemetry

  // ----- lines

  /** The position of the first newline, or the length if there is none. */
  function Newline(s: string): (i: nat)
    ensures i <= |s|
    ensures i < |s| ==> s[i] == '\n'
    ensures '\n' !in s[..i]
  {
    if s == "" || s[0] == '\n' then 0
    else
      var i := 1 + Newline(s[1..]);
      assert s[..i] == [s[0]] + s[1..][..i - 1];
      i
  }

  /** The newline-terminated lines of a text, without their newlines. */
  ghost function Lines(s: string): seq<string>
    decreases |s|
  {
    var i := Newline(s);
    if i == |s| then [] else [s[..i]] + Lines(s[i + 1..])
  }

  /** What follows the last newline of a text. */
  ghost function Tail(s: string): string
    decreases |s|
  {
    var i := Newline(s);
    if i == |s| then s else Tail(s[i + 1..])
  }

  /** Lines and an unterminated rest written back to back. */
  ghost function Text(lines: seq<string>, rest: string): string
  {
    if lines == [] then rest else lines[0] + "\n" + Text(lines[1..], rest)
  }

  lemma {:induction false} FirstIs(s: string, i: nat)
    requires i <= |s| && '\n' !in s[..i] && (i < |s| ==> s[i] == '\n')
    ensures Newline(s) == i
    decreases i
  {
    if i > 0 {
      assert s[..i] == [s[0]] + s[1..][..i - 1];
      FirstIs(s[1..], i - 1);
    }
  }

  lemma NewlineAfter(line: string, more: string)
    requires '\n' !in line
    ensures Newline(line + "\n" + more) == |line|
  {
    hide Newline;
    var s := line + "\n" + more;
    assert s[..|line|] == line;
    FirstIs(s, |line|);
  }

  lemma NoNewline(s: string)
    requires '\n' !in s
    ensures Newline(s) == |s|
  {
    assert s[..|s|] == s;
    FirstIs(s, |s|);
  }

  /** Splitting a text into lines and a tail loses nothing, and the pieces contain no newline. */
  lemma {:induction false} LinesAreText(s: string)
    ensures Text(Lines(s), Tail(s)) == s
    ensures '\n' !in Tail(s) && forall line :: line in Lines(s) ==> '\n' !in line
    decreases |s|
  {
    var i := Newline(s);
    if i < |s| {
      LinesAreText(s[i + 1..]);
      assert s == s[..i] + "\n" + s[i + 1..];
    } else {
      assert s[..i] == s;
    }
  }

  /** And it is the only such split. */
  lemma {:induction false} TextHasLines(lines: seq<string>, rest: string)
    requires '\n' !in rest && forall line :: line in lines ==> '\n' !in line
    ensures Lines(Text(lines, rest)) == lines && Tail(Text(lines, rest)) == rest
    decreases |lines|
  {
    if lines == [] {
      NoNewline(rest);
    } else {
      TextHasLines(lines[1..], rest);
      OneMoreLine(lines[0], Text(lines[1..], rest));
      assert lines == [lines[0]] + lines[1..];
    }
  }

  lemma OneMoreLine(line: string, more: string)
    requires '\n' !in line
    ensures Lines(line + "\n" + more) == [line] + Lines(more) && Tail(line + "\n" + more) == Tail(more)
  {
    var s := line + "\n" + more;
    NewlineAfter(line, more);
    assert s[..|line|] == line && s[|line| + 1..] == more;
  }

  // ----- decoding

  /** The decoded values of a list of lines, up to the first that does not decode. */
  ghost function DecodedLines<T>(decode: string -> Option<T>, lines: seq<string>): seq<T>
  {
    if lines == [] || decode(lines[0]).None? then [] else [decode(lines[0]).value] + DecodedLines(decode, lines[1..])
  }

  /** The decoded lines of a text. */
  ghost function Decoded<T>(decode: string -> Option<T>, s: string): seq<T>
    decreases |s|
  {
    var i := Newline(s);
    if i == |s| || decode(s[..i]).None? then [] else [decode(s[..i]).value] + Decoded(decode, s[i + 1..])
  }

  /** What is left undecoded: the text from the first bad line on, or else the tail. */
  ghost function Remaining<T>(decode: string -> Option<T>, s: string): string
    decreases |s|
  {
    var i := Newline(s);
    if i == |s| || decode(s[..i]).None? then s else Remaining(decode, s[i + 1..])
  }

  ghost predicate AllDecode<T>(decode: string -> Option<T>, s: string)
  {
    forall line :: line in Lines(s) ==> decode(line).Some?
  }

  /** The meaning of the two functions in terms of lines. */
  lemma {:induction false} DecodedMeaning<T>(decode: string -> Option<T>, s: string)
    ensures Decoded(decode, s) == DecodedLines(decode, Lines(s))
    ensures AllDecode(decode, s) ==> Remaining(decode, s) == Tail(s) && |Decoded(decode, s)| == |Lines(s)|
    ensures !AllDecode(decode, s) <==> Newline(Remaining(decode, s)) < |Remaining(decode, s)|
    decreases |s|
  {
    var i := Newline(s);
    if i < |s| {
      var more := s[i + 1..];
      DecodedMeaning(decode, more);
      assert Lines(s)[1..] == Lines(more);
      assert Lines(s)[0] == s[..i];
      assert AllDecode(decode, s) <==> decode(s[..i]).Some? && AllDecode(decode, more) by {
        assert forall line :: line in Lines(s) <==> line == s[..i] || line in Lines(more);
      }
    }
  }

  lemma NewlineStays(s: string, chunk: string)
    requires Newline(s) < |s|
    ensures Newline(s + chunk) == Newline(s)
  {
    var i := Newline(s);
    assert s + chunk == s[..i] + "\n" + (s[i + 1..] + chunk);
    NewlineAfter(s[..i], s[i + 1..] + chunk);
  }

  lemma FirstLine<T>(decode: string -> Option<T>, s: string)
    ensures var i := Newline(s);
            if i == |s| || decode(s[..i]).None? then Decoded(decode, s) == [] && Remaining(decode, s) == s
            else
              && Decoded(decode, s) == [decode(s[..i]).value] + Decoded(decode, s[i + 1..])
              && Remaining(decode, s) == Remaining(decode, s[i + 1..])
  {
    hide Newline;
  }

  /** Decoding a text and then a further chunk is decoding them together. */
  lemma {:induction false} Feed<T>(decode: string -> Option<T>, s: string, chunk: string)
    ensures Decoded(decode, s + chunk) == Decoded(decode, s) + Decoded(decode, Remaining(decode, s) + chunk)
    ensures Remaining(decode, s + chunk) == Remaining(decode, Remaining(decode, s) + chunk)
    decreases |s|
  {
    hide Decoded, Remaining, Newline;
    var i := Newline(s);
    FirstLine(decode, s);
    if i < |s| && decode(s[..i]).Some? {
      var more := s[i + 1..];
      NewlineStays(s, chunk);
      assert (s + chunk)[..i] == s[..i];
      assert (s + chunk)[i + 1..] == more + chunk;
      FirstLine(decode, s + chunk);
      Feed(decode, more, chunk);
    } else {
      assert [] + Decoded(decode, s + chunk) == Decoded(decode, s + chunk);
    }
  }

  /** What the scan does when it meets a newline. */
  lemma LineStep<T>(decode: string -> Option<T>, s: string, i: nat)
    requires i < |s| && '\n' !in s[..i] && s[i] == '\n'
    ensures Newline(s) == i
    ensures decode(s[..i]).None? ==> Decoded(decode, s) == [] && Remaining(decode, s) == s
    ensures decode(s[..i]).Some? ==>
              && Decoded(decode, s) == [decode(s[..i]).value] + Decoded(decode, s[i + 1..])
              && Remaining(decode, s) == Remaining(decode, s[i + 1..])
  {
    FirstIs(s, i);
    FirstLine(decode, s);
  }

  /** What is left when the scan meets no newline. */
  lemma ScanEnds<T>(decode: string -> Option<T>, s: string)
    requires '\n' !in s[..|s|]
    ensures Newline(s) == |s| && Decoded(decode, s) == [] && Remaining(decode, s) == s
  {
    FirstIs(s, |s|);
    FirstLine(decode, s);
  }

  /** The transform stream's controller. `fed` is all the text received so far. */
  class Controller<T> {
    const decode: string -> Option<T>
    var buf: Option<string>
    var pos: Option<nat>
    var queue: seq<T>
    ghost var fed: string

    function Buf(): string
      reads this
    {
      if buf.None? then "" else buf.value
    }

    function Pos(): nat
      reads this
    {
      if pos.None? then 0 else pos.value
    }

    /** The state is a function of the text received, however it was cut into chunks. */
    ghost predicate Valid()
      reads this
    {
      && queue == Decoded(decode, fed)
      && Buf() == Remaining(decode, fed)
      && Pos() == Newline(Buf())
    }

    constructor (decode: string -> Option<T>)
      ensures Valid() && fed == "" && queue == [] && this.decode == decode
    {
      this.decode := decode;
      buf, pos, queue := None, None, [];
      fed := "";
    }

    method Start()
      requires Valid() && fed == ""
      modifies this`buf, this`pos
      ensures Valid() && buf == Some("") && pos == Some(0)
    {
      buf, pos := Some(""), Some(0);
    }

    /** Takes in a chunk: enqueues the value of every line it completes, until a line does not decode. */
    method Transform(chunk: string) returns (ok: bool)
      requires Valid()
      modifies this`buf, this`pos, this`queue, this`fed
      ensures Valid() && fed == old(fed) + chunk
      ensures ok <==> AllDecode(decode, fed)
      ensures ok ==> buf == Some(Tail(fed)) && pos == Some(|Tail(fed)|)
    {
      hide Decoded, Remaining, AllDecode, Newline, Lines, Tail;
      if buf.None? {
        buf := Some("");
      }
      if pos.None? {
        pos := Some(0);
      }
      Feed(decode, fed, chunk);
      DecodedMeaning(decode, fed + chunk);
      fed := fed + chunk;
      assert (buf.value + chunk)[..pos.value] == buf.value[..pos.value];
      buf := Some(buf.value + chunk);
      ok := Scan();
    }

    /** The text received, in terms of what has been enqueued and what is buffered. */
    ghost predicate Scanning()
      reads this
    {
      && buf.Some? && pos.Some? && pos.value <= |buf.value|
      && '\n' !in buf.value[..pos.value]
      && Decoded(decode, fed) == queue + Decoded(decode, buf.value)
      && Remaining(decode, fed) == Remaining(decode, buf.value)
    }

    method Scan() returns (ok: bool)
      requires Scanning()
      modifies this`buf, this`pos, this`queue
      ensures Valid() && buf.Some? && pos.Some?
      ensures ok <==> pos.value == |buf.value|
    {
      hide Decoded, Remaining, Newline;
      while pos.value < |buf.value|
        invariant Scanning()
        decreases |buf.value| - pos.value
      {
        if buf.value[pos.value] == '\n' {
          LineStep(decode, buf.value, pos.value);
          var line := buf.value[..pos.value];
          var response := decode(line);
          if response.None? {
            assert queue + [] == queue;
            return false;
          }
          queue := queue + [response.value];
          buf := Some(buf.value[pos.value + 1..]);
          pos := Some(0);
        } else {
          pos := Some(pos.value + 1);
        }
      }
      ScanEnds(decode, buf.value);
      assert queue + [] == queue;
      ok := true;
    }
  }

  ghost function Concat(chunks: seq<string>): string
  {
    if chunks == [] then "" else Concat(chunks[..|chunks| - 1]) + chunks[|chunks| - 1]
  }

  /** Runs a stream cut into any chunks; the stream ends at the first chunk that fails. */
  method Decode<T>(decode: string -> Option<T>, chunks: seq<string>) returns (ok: bool, values: seq<T>)
    ensures values == DecodedLines(decode, Lines(Concat(chunks)))
    ensures ok <==> AllDecode(decode, Concat(chunks))
  {
    assert chunks[..0] == [] && Concat([]) == "" && AllDecode(decode, "");
    hide Decoded, DecodedLines, Lines, AllDecode, Concat, Remaining, Newline, Tail;
    var c := new Controller(decode);
    c.Start();
    ok := true;
    for i := 0 to |chunks|
      invariant c.Valid() && c.decode == decode && c.fed == Concat(chunks[..i])
      invariant ok
      invariant AllDecode(decode, c.fed)
    {
      ok := c.Transform(chunks[i]);
      ConcatNext(chunks, i);
      if !ok {
        DecodedMeaning(decode, c.fed);
        NoMoreAfterFailure(decode, chunks, i + 1);
        return false, c.queue;
      }
    }
    assert chunks[..|chunks|] == chunks;
    DecodedMeaning(decode, c.fed);
    values := c.queue;
  }

  lemma ConcatNext(chunks: seq<string>, i: nat)
    requires i < |chunks|
    ensures Concat(chunks[..i + 1]) == Concat(chunks[..i]) + chunks[i]
  {
    assert chunks[..i + 1][..i] == chunks[..i];
  }

  /** Once a line does not decode, nothing that follows is decoded. */
  lemma {:induction false} NoMoreAfterFailure<T>(decode: string -> Option<T>, chunks: seq<string>, i: nat)
    requires i <= |chunks| && !AllDecode(decode, Concat(chunks[..i]))
    ensures !AllDecode(decode, Concat(chunks))
    ensures DecodedLines(decode, Lines(Concat(chunks))) == Decoded(decode, Concat(chunks[..i]))
    decreases |chunks|
  {
    if i == |chunks| {
      assert chunks[..i] == chunks;
      DecodedMeaning(decode, Concat(chunks));
    } else {
      var init, last := chunks[..|chunks| - 1], chunks[|chunks| - 1];
      assert init[..i] == chunks[..i];
      NoMoreAfterFailure(decode, init, i);
      StaysStuck(decode, Concat(init), last);
    }
  }

  lemma StaysStuck<T>(decode: string -> Option<T>, s: string, chunk: string)
    requires !AllDecode(decode, s)
    ensures !AllDecode(decode, s + chunk)
    ensures DecodedLines(decode, Lines(s + chunk)) == DecodedLines(decode, Lines(s))
  {
    hide Lines, AllDecode, DecodedLines, Newline;
    var r := Remaining(decode, s);
    DecodedMeaning(decode, s);
    DecodedMeaning(decode, s + chunk);
    Feed(decode, s, chunk);
    NewlineStays(r, chunk);
    StuckRemaining(decode, s);
    assert (r + chunk)[..Newline(r)] == r[..Newline(r)];
  }

  lemma {:induction false} StuckRemaining<T>(decode: string -> Option<T>, s: string)
    ensures var r := Remaining(decode, s); Newline(r) < |r| ==> decode(r[..Newline(r)]).None?
    decreases |s|
  {
    var i := Newline(s);
    if i < |s| && decode(s[..i]).Some? {
      StuckRemaining(decode, s[i + 1..]);
    }
  }

  /** If all lines parse, the decoded values are theirs, one by one. */
  lemma {:induction false} DecodedValues<T>(decode: string -> Option<T>, lines: seq<string>, i: nat)
    requires i < |lines| && forall j :: 0 <= j <= i ==> decode(lines[j]).Some?
    ensures i < |DecodedLines(decode, lines)| && DecodedLines(decode, lines)[i] == decode(lines[i]).value
    decreases i
  {
    if i > 0 {
      DecodedValues(decode, lines[1..], i - 1);
    }
  }
}
