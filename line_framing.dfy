/**
 * The reading side of `ollamaStreamHandler`: the scanner's split function,
 * the scanner loop over the body, and the filter that drops short lines
 * before they are handed to the emitter.
 */
module LineFraming {
  import opened Wrappers
  import opened OllamaTypes
  import opened Seqs

  /** Lines shorter than this are taken as blank or malformed and dropped. */
  const MinLineLength: nat := 5

  /** `strings.Index` for one byte: the first position of `b` in `data`, or -1. */
  function IndexOf(data: bytes, b: byte): (r: int)
    ensures -1 <= r < |data|
    ensures r >= 0 ==> data[r] == b
    ensures forall j | 0 <= j < (if r < 0 then |data| else r) :: data[j] != b
  {
    if data == [] then -1
    else if data[0] == b then 0
    else
      var rest := IndexOf(data[1..], b);
      if rest < 0 then -1 else 1 + rest
  }

  /** The search fails exactly when the byte is absent. */
  lemma IndexOfAbsent(data: bytes, b: byte)
    ensures IndexOf(data, b) == -1 <==> b !in data
  {
  }

  /** Appending bytes after a found byte does not move the search result. */
  lemma {:induction false} IndexOfExtend(data: bytes, more: bytes, b: byte)
    requires b in data
    ensures IndexOf(data + more, b) == IndexOf(data, b)
  {
    if data[0] != b {
      assert (data + more)[1..] == data[1..] + more;
      IndexOfExtend(data[1..], more, b);
    }
  }

  /** What the split function returns: how far to advance, and the token, if any. */
  datatype SplitResult = SplitResult(advance: nat, token: Option<bytes>)

  /**
   * The split function given to the scanner. A `None` token asks for more
   * data (or, at end of input with nothing left, ends the scan).
   */
  function Split(data: bytes, atEOF: bool): (r: SplitResult)
    ensures r.advance <= |data|
    ensures r.token.None? <==> (atEOF && data == []) || (!atEOF && NL !in data)
    ensures r.token.None? ==> r.advance == 0
    ensures r.token.Some? ==> NL !in r.token.value
    ensures NL in data ==>
      r.token.Some? && r.advance == |r.token.value| + 1 &&
      data[|r.token.value|] == NL && data[..|r.token.value|] == r.token.value
    ensures NL !in data && atEOF && data != [] ==> r == SplitResult(|data|, Some(data))
  {
    if atEOF && |data| == 0 then SplitResult(0, None)
    else
      var i := IndexOf(data, NL);
      if i >= 0 then SplitResult(i + 1, Some(data[0..i]))
      else if atEOF then SplitResult(|data|, Some(data))
      else SplitResult(0, None)
  }

  /**
   * The tokens the scanner yields for a body that is wholly buffered: the
   * text before each newline, then whatever follows the last newline.
   */
  function Lines(body: bytes): seq<bytes>
    decreases |body|
  {
    if body == [] then []
    else
      var i := IndexOf(body, NL);
      if i < 0 then [body] else [body[..i]] + Lines(body[i + 1..])
  }

  /** One scan step: the token `Split` yields at end of input heads the rest of the scan. */
  lemma LinesUnfold(data: bytes, r: SplitResult)
    requires Split(data, true) == r
    ensures r.advance <= |data|
    ensures r.token.None? ==> Lines(data) == []
    ensures r.token.Some? ==> 0 < r.advance && Lines(data) == [r.token.value] + Lines(data[r.advance..])
  {
    if data != [] && IndexOf(data, NL) < 0 {
      assert data[|data|..] == [];
    }
  }

  /** The scan of `body` so far is `scanned`, and `rest` is left: one more step. */
  lemma ScanStep(body: bytes, rest: bytes, scanned: seq<bytes>, r: SplitResult)
    requires Lines(body) == scanned + Lines(rest)
    requires Split(rest, true) == r && r.token.Some?
    ensures 0 < r.advance <= |rest|
    ensures Lines(body) == (scanned + [r.token.value]) + Lines(rest[r.advance..])
  {
    LinesUnfold(rest, r);
    var tail := Lines(rest[r.advance..]);
    assert scanned + ([r.token.value] + tail) == (scanned + [r.token.value]) + tail;
  }

  /** `tokens` joined with one newline between neighbours. */
  function Join(tokens: seq<bytes>): bytes
  {
    if tokens == [] then []
    else if |tokens| == 1 then tokens[0]
    else tokens[0] + [NL] + Join(tokens[1..])
  }

  /** Whether `body` ends with a newline. */
  predicate EndsWithNewline(body: bytes)
  {
    body != [] && body[|body| - 1] == NL
  }

  /**
   * The result does not depend on how the body arrives: before end of input
   * no token is yielded until a newline has arrived, and once it has, the
   * result is the one end of input would give with any further bytes.
   */
  lemma SplitChunking(data: bytes, more: bytes)
    ensures NL !in data ==> Split(data, false).token.None?
    ensures NL in data ==> Split(data, false) == Split(data + more, true)
  {
    if NL in data {
      IndexOfExtend(data, more, NL);
      IndexOfAbsent(data, NL);
      var i := IndexOf(data, NL);
      assert (data + more)[0..i] == data[0..i];
    }
  }

  /** The scan yields no token exactly for the empty body. */
  lemma LinesEmpty(body: bytes)
    ensures Lines(body) == [] <==> body == []
  {
  }

  /** No token contains a newline. */
  lemma {:induction false} LinesHaveNoNewline(body: bytes)
    ensures forall k | 0 <= k < |Lines(body)| :: NL !in Lines(body)[k]
    decreases |body|
  {
    if body != [] {
      var i := IndexOf(body, NL);
      if i >= 0 {
        LinesHaveNoNewline(body[i + 1..]);
      }
    }
  }

  /**
   * Joining the tokens with newlines gives the body back, except for a final
   * newline, which ends the last line without starting an empty one.
   */
  lemma {:induction false} LinesJoin(body: bytes)
    ensures Join(Lines(body)) + (if EndsWithNewline(body) then [NL] else []) == body
    decreases |body|
  {
    if body != [] {
      var i := IndexOf(body, NL);
      if i >= 0 {
        var line, rest := body[..i], body[i + 1..];
        assert body == line + [NL] + rest;
        LinesJoin(rest);
        if rest == [] {
          assert Lines(body) == [line];
        } else {
          var tokens, tail := Lines(rest), if EndsWithNewline(rest) then [NL] else [];
          assert EndsWithNewline(body) == EndsWithNewline(rest);
          assert Lines(body) == [line] + tokens;
          assert tokens != [];
          assert ([line] + tokens)[1..] == tokens;
          assert Join(Lines(body)) == line + [NL] + Join(tokens);
          assert (line + [NL] + Join(tokens)) + tail == line + [NL] + (Join(tokens) + tail);
        }
      } else {
        assert body[|body| - 1] in body;
      }
    }
  }

  /** `line` followed by its terminator. */
  function Terminate(line: bytes): bytes
  {
    line + [NL]
  }

  /** A body made of newline-terminated lines. */
  function Terminated(lines: seq<bytes>): bytes
  {
    FlatMap(lines, Terminate)
  }

  /** Scanning newline-terminated lines that hold no newline gives those lines back. */
  lemma {:induction false} LinesOfTerminated(lines: seq<bytes>)
    requires forall k | 0 <= k < |lines| :: NL !in lines[k]
    ensures Lines(Terminated(lines)) == lines
  {
    if lines != [] {
      var first, rest := lines[0], lines[1..];
      assert lines == [first] + rest;
      FlatMapAppend([first], rest, Terminate);
      FlatMapSingle(first, Terminate);
      var body := Terminated(lines);
      assert body == first + [NL] + Terminated(rest);
      var i := IndexOf(body, NL);
      assert body[|first|] == NL;
      assert i == |first|;
      assert body[..i] == first;
      assert body[i + 1..] == Terminated(rest);
      LinesOfTerminated(rest);
    }
  }

  /** What the reader hands on for one token: the token, unless it is too short. */
  function Keep(token: bytes): seq<bytes>
  {
    if |token| < MinLineLength then [] else [token]
  }

  /** The tokens that reach the emitter, in order. */
  function Kept(tokens: seq<bytes>): seq<bytes>
  {
    FlatMap(tokens, Keep)
  }

  /** A line reaches the emitter exactly when it was scanned and is long enough. */
  lemma {:induction false} KeptMembers(tokens: seq<bytes>, line: bytes)
    ensures line in Kept(tokens) <==> line in tokens && |line| >= MinLineLength
  {
    if tokens != [] {
      var init := tokens[..|tokens| - 1];
      assert tokens == init + [tokens[|tokens| - 1]];
      KeptMembers(init, line);
    }
  }

  /** Filtering keeps the order: it distributes over concatenation. */
  lemma KeptAppend(xs: seq<bytes>, ys: seq<bytes>)
    ensures Kept(xs + ys) == Kept(xs) + Kept(ys)
  {
    FlatMapAppend(xs, ys, Keep);
  }

  /**
   * The reading task: scan the body with `Split` and pass on every token of
   * at least `MinLineLength` bytes. The result is what the emitter receives.
   */
  method ProduceLines(body: bytes) returns (sent: seq<bytes>)
    ensures sent == Kept(Lines(body))
  {
    var rest := body;
    sent := [];
    ghost var scanned: seq<bytes> := [];
    assert Lines(body) == scanned + Lines(rest) by {
      var all := Lines(body);
      assert [] + all == all;
    }
    while true
      invariant Lines(body) == scanned + Lines(rest)
      invariant sent == Kept(scanned)
      decreases |rest|
    {
      var split := Split(rest, true);
      if split.token.None? {
        assert Lines(body) == scanned by {
          LinesUnfold(rest, split);
          assert scanned + [] == scanned;
        }
        break;
      }
      var data := split.token.value;
      ScanStep(body, rest, scanned, split);
      rest := rest[split.advance..];
      FlatMapSnoc(scanned, data, Keep);
      scanned := scanned + [data];
      if |data| < MinLineLength {
        continue;
      }
      sent := sent + [data];
    }
  }



}
