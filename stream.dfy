/** How streamed text fragments grow the in-progress assistant buffer
    (the read loop of `requestWithLatestMessage`, src/components/Generator.tsx). */
module Stream {
  import opened Messages

  predicate EndsWithNewline(s: string)
  {
    |s| > 0 && s[|s| - 1] == '\n'
  }

  /** A fragment that is exactly one newline, arriving when the buffer
      already ends in a newline: the read loop skips it. */
  predicate IsRepeatedNewline(buffer: string, fragment: string)
  {
    fragment == "\n" && EndsWithNewline(buffer)
  }

  /** The buffer after one decoded fragment. */
  function AcceptFragment(buffer: string, fragment: string): (r: string)
    ensures r == buffer || r == buffer + fragment
    ensures r == buffer <==> fragment == "" || IsRepeatedNewline(buffer, fragment)
  {
    if IsRepeatedNewline(buffer, fragment) then buffer
    else if fragment != "" then buffer + fragment
    else buffer
  }

  /** The buffer after a sequence of fragments, in arrival order. */
  function Accumulate(buffer: string, fragments: seq<string>): string
    decreases |fragments|
  {
    if fragments == [] then buffer
    else Accumulate(AcceptFragment(buffer, fragments[0]), fragments[1..])
  }

  function Concat(fragments: seq<string>): string
    decreases |fragments|
  {
    if fragments == [] then "" else fragments[0] + Concat(fragments[1..])
  }

  /** No two consecutive newlines anywhere in `s`. */
  predicate NoBlankLine(s: string)
  {
    forall i :: 0 <= i < |s| - 1 ==> !(s[i] == '\n' && s[i + 1] == '\n')
  }

  /** A fragment is either a lone newline or text without any newline. */
  predicate IsSimpleFragment(fragment: string)
  {
    fragment == "\n" || forall k :: 0 <= k < |fragment| ==> fragment[k] != '\n'
  }

  /** Accepting a lone newline never creates a trailing blank line. */
  lemma NewlineNeverDoubles(buffer: string)
    ensures var r := AcceptFragment(buffer, "\n");
            (|r| >= 2 && r[|r| - 2..] == "\n\n") <==> (|buffer| >= 2 && buffer[|buffer| - 2..] == "\n\n")
  {
    var r := AcceptFragment(buffer, "\n");
    if !EndsWithNewline(buffer) {
      assert r == buffer + "\n";
      if |r| >= 2 {
        assert r[|r| - 2] == buffer[|buffer| - 1];
      }
    }
  }

  /** One step of `NoBlankLineKept`. */
  lemma AcceptKeepsNoBlankLine(buffer: string, fragment: string)
    requires NoBlankLine(buffer) && IsSimpleFragment(fragment)
    ensures NoBlankLine(AcceptFragment(buffer, fragment))
  {
    var r := AcceptFragment(buffer, fragment);
    if r != buffer {
      assert r == buffer + fragment;
      forall i | 0 <= i < |r| - 1
        ensures !(r[i] == '\n' && r[i + 1] == '\n')
      {
        if i + 1 < |buffer| {
          assert r[i] == buffer[i] && r[i + 1] == buffer[i + 1];
        } else if i + 1 == |buffer| {
          assert r[i + 1] == fragment[0];
        } else {
          assert r[i + 1] == fragment[i + 1 - |buffer|];
        }
      }
    }
  }

  /** A stream of lone newlines and newline-free text never puts a blank
      line into a buffer that had none. */
  lemma {:induction false} NoBlankLineKept(buffer: string, fragments: seq<string>)
    requires NoBlankLine(buffer)
    requires forall j :: 0 <= j < |fragments| ==> IsSimpleFragment(fragments[j])
    ensures NoBlankLine(Accumulate(buffer, fragments))
    decreases |fragments|
  {
    if fragments != [] {
      AcceptKeepsNoBlankLine(buffer, fragments[0]);
      NoBlankLineKept(AcceptFragment(buffer, fragments[0]), fragments[1..]);
    }
  }

  /** Accepted text is never taken back: the old buffer stays a prefix. */
  lemma {:induction false} AccumulateExtends(buffer: string, fragments: seq<string>)
    ensures buffer <= Accumulate(buffer, fragments)
    decreases |fragments|
  {
    if fragments != [] {
      var next := AcceptFragment(buffer, fragments[0]);
      AccumulateExtends(next, fragments[1..]);
    }
  }

  /** Without lone-newline fragments every fragment is appended, in order. */
  lemma {:induction false} AccumulateAppendsInOrder(buffer: string, fragments: seq<string>)
    requires forall j :: 0 <= j < |fragments| ==> fragments[j] != "\n"
    ensures Accumulate(buffer, fragments) == buffer + Concat(fragments)
    decreases |fragments|
  {
    if fragments != [] {
      var next := AcceptFragment(buffer, fragments[0]);
      assert next == buffer + fragments[0];
      AccumulateAppendsInOrder(next, fragments[1..]);
      assert buffer + fragments[0] + Concat(fragments[1..]) == buffer + (fragments[0] + Concat(fragments[1..]));
    }
  }

  /** The fragments "a", "\n", "b" give "a\nb"; a second lone newline is dropped. */
  lemma AccumulateExamples()
    ensures Accumulate("", ["a", "\n", "b"]) == "a\nb"
    ensures Accumulate("a\n", ["\n", "\n"]) == "a\n"
  {
    assert AcceptFragment("", "a") == "a";
    assert AcceptFragment("a", "\n") == "a\n";
    assert AcceptFragment("a\n", "b") == "a\nb";
    assert AcceptFragment("a\n", "\n") == "a\n";
  }

  /** One `reader.read()` result: the decoded text of its chunk, if any, and
      the reader's `done` flag. */
  datatype Read = Read(value: Option<string>, done: bool)

  /** Where the read loop stops: the buffer, how many results it consumed,
      and whether it left through `done` (rather than running out of results). */
  datatype LoopResult = LoopResult(buffer: string, consumed: nat, ended: bool)

  /** The loop's `continue` on a repeated newline also skips `done = readerDone`. */
  predicate Skips(buffer: string, r: Read)
  {
    r.value.Some? && IsRepeatedNewline(buffer, r.value.value)
  }

  predicate EndsLoop(buffer: string, r: Read)
  {
    r.done && !Skips(buffer, r)
  }

  function ReadStep(buffer: string, r: Read): string
  {
    match r.value
    case None => buffer
    case Some(fragment) => AcceptFragment(buffer, fragment)
  }

  function Shift(o: LoopResult, n: nat): LoopResult
  {
    LoopResult(o.buffer, o.consumed + n, o.ended)
  }

  /** The `while (!done)` read loop run over the results available. */
  function ReadLoop(buffer: string, results: seq<Read>): (r: LoopResult)
    ensures r.consumed <= |results|
    ensures !r.ended ==> r.consumed == |results|
    ensures r.ended ==> 0 < r.consumed && results[r.consumed - 1].done
    decreases |results|
  {
    if results == [] then LoopResult(buffer, 0, false)
    else if EndsLoop(buffer, results[0]) then LoopResult(ReadStep(buffer, results[0]), 1, true)
    else Shift(ReadLoop(ReadStep(buffer, results[0]), results[1..]), 1)
  }

  /** One iteration of the read loop, taken from position `i` of the results. */
  lemma ReadLoopFrom(buffer: string, results: seq<Read>, i: nat)
    requires i < |results|
    ensures ReadLoop(buffer, results[i..])
         == if EndsLoop(buffer, results[i]) then LoopResult(ReadStep(buffer, results[i]), 1, true)
            else Shift(ReadLoop(ReadStep(buffer, results[i]), results[i + 1..]), 1)
  {
    assert results[i..][0] == results[i] && results[i..][1..] == results[i + 1..];
  }

  /** The decoded fragments of `results`, in order. */
  function Fragments(results: seq<Read>): seq<string>
    decreases |results|
  {
    if results == [] then []
    else (match results[0].value case None => [] case Some(f) => [f]) + Fragments(results[1..])
  }

  /** The fragments of one read, then the rest. */
  lemma AccumulateRead(buffer: string, r: Read, rest: seq<string>)
    ensures Accumulate(buffer, Fragments([r]) + rest) == Accumulate(ReadStep(buffer, r), rest)
  {
    assert Fragments([r]) == (match r.value case None => [] case Some(f) => [f]) + Fragments([]);
    match r.value {
      case None =>
        assert Fragments([r]) + rest == rest;
      case Some(f) =>
        var all := Fragments([r]) + rest;
        assert all[0] == f && all[1..] == rest;
    }
  }

  lemma FragmentsCons(r: Read, tail: seq<Read>)
    ensures Fragments([r] + tail) == Fragments([r]) + Fragments(tail)
  {
    assert ([r] + tail)[1..] == tail;
  }

  /** The loop's buffer is the accumulation of exactly the fragments it consumed. */
  lemma {:induction false} ReadLoopAccumulates(buffer: string, results: seq<Read>)
    ensures ReadLoop(buffer, results).buffer
         == Accumulate(buffer, Fragments(results[..ReadLoop(buffer, results).consumed]))
    decreases |results|
  {
    if results != [] {
      var r := results[0];
      if EndsLoop(buffer, r) {
        assert results[..1] == [r];
        AccumulateRead(buffer, r, []);
        assert Fragments([r]) + [] == Fragments([r]);
      } else {
        var next := ReadStep(buffer, r);
        var rest := ReadLoop(next, results[1..]);
        ReadLoopAccumulates(next, results[1..]);
        var tail := results[1..][..rest.consumed];
        assert results[..rest.consumed + 1] == [r] + tail;
        FragmentsCons(r, tail);
        AccumulateRead(buffer, r, Fragments(tail));
      }
    }
  }

  /** The buffer the loop holds when it reaches result `j`. */
  function BufferAt(buffer: string, results: seq<Read>, j: nat): string
    requires j <= |results|
  {
    Accumulate(buffer, Fragments(results[..j]))
  }

  lemma BufferAtNext(buffer: string, results: seq<Read>, j: nat)
    requires 0 < j <= |results|
    ensures BufferAt(buffer, results, j) == BufferAt(ReadStep(buffer, results[0]), results[1..], j - 1)
  {
    assert results[..j] == [results[0]] + results[1..][..j - 1];
    FragmentsCons(results[0], results[1..][..j - 1]);
    AccumulateRead(buffer, results[0], Fragments(results[1..][..j - 1]));
  }

  /** The loop stops at the first result that ends it, judged on the buffer
      the loop holds when that result arrives, and at no other: when it runs
      out of results, none of them ended it. */
  lemma {:induction false} ReadLoopStopsAtFirstEnd(buffer: string, results: seq<Read>)
    ensures var r := ReadLoop(buffer, results);
            forall j :: 0 <= j < r.consumed ==>
              (EndsLoop(BufferAt(buffer, results, j), results[j]) <==> r.ended && j == r.consumed - 1)
    decreases |results|
  {
    var r := ReadLoop(buffer, results);
    if results != [] {
      assert BufferAt(buffer, results, 0) == buffer by {
        assert results[..0] == [];
      }
      if !EndsLoop(buffer, results[0]) {
        var next := ReadStep(buffer, results[0]);
        ReadLoopStopsAtFirstEnd(next, results[1..]);
        forall j | 0 < j < r.consumed
          ensures EndsLoop(BufferAt(buffer, results, j), results[j]) <==> r.ended && j == r.consumed - 1
        {
          BufferAtNext(buffer, results, j);
          assert results[1..][j - 1] == results[j];
        }
      }
    }
  }

  /** As written, a read that carries a repeated newline together with
      `done` does not end the loop. */
  lemma SkippedReadKeepsLoopOpen(buffer: string)
    requires EndsWithNewline(buffer)
    ensures ReadLoop(buffer, [Read(Some("\n"), true)]) == LoopResult(buffer, 1, false)
  {
  }
}
