/** The log viewer's tail: the file is read backwards in chunks until enough lines are in memory. Files are
    sequences of bytes; decoding them is not part of this model. */
module LogTail {
  import opened Collections

  newtype Byte = b: int | 0 <= b < 256

  const LF: Byte := 10

  /** The pieces of `s` between line feeds, as `split` gives them: always at least one. */
  function Split(s: seq<Byte>): (r: seq<seq<Byte>>)
    ensures r != []
  {
    if s == [] then [[]]
    else if s[0] == LF then [[]] + Split(s[1..])
    else [[s[0]] + Split(s[1..])[0]] + Split(s[1..])[1..]
  }

  predicate NonEmpty(line: seq<Byte>) { |line| > 0 }

  function Lines(s: seq<Byte>): seq<seq<Byte>>
  {
    Filter(Split(s), NonEmpty)
  }

  /** The last `n` elements, or all of them if there are fewer: `slice(-n)` for positive `n`. */
  function Last<T>(s: seq<T>, n: nat): (r: seq<T>)
    ensures |r| == (if |s| <= n then |s| else n) && r == s[|s| - |r|..]
  {
    if |s| <= n then s else s[|s| - n..]
  }

  lemma FilterCons<T>(x: T, s: seq<T>, p: T -> bool)
    ensures Filter([x] + s, p) == if p(x) then [x] + Filter(s, p) else Filter(s, p)
  {
    FilterAppend([x], s, p);
    assert Filter([x], p) == if p(x) then [x] else [];
    assert [] + Filter(s, p) == Filter(s, p);
  }

  /** One more byte in front adds a line, or extends the first line, or changes nothing. */
  lemma ByteInFront(c: Byte, s: seq<Byte>)
    ensures c == LF ==> Lines([c] + s) == Lines(s)
    ensures c != LF && (s == [] || s[0] == LF) ==> Lines([c] + s) == [[c]] + Lines(s)
    ensures c != LF && s != [] && s[0] != LF ==>
              Lines(s) != [] && Lines([c] + s) == [[c] + Lines(s)[0]] + Lines(s)[1..]
  {
    SplitInFront(c, s);
    hide Split, Filter;
    if c == LF {
      FilterCons([], Split(s), NonEmpty);
    } else {
      var first, rest := Split(s)[0], Split(s)[1..];
      FilterCons(first, rest, NonEmpty);
      FilterCons([c] + first, rest, NonEmpty);
      hide NonEmpty;
      if first == [] {
        assert [c] + first == [c];
      } else {
        assert Lines(s)[1..] == Filter(rest, NonEmpty);
      }
    }
  }

  lemma SplitInFront(c: Byte, s: seq<Byte>)
    ensures Split(s) == [Split(s)[0]] + Split(s)[1..]
    ensures Split(s)[0] == [] <==> s == [] || s[0] == LF
    ensures Split([c] + s) == if c == LF then [[]] + Split(s) else [[c] + Split(s)[0]] + Split(s)[1..]
  {
  }

  /** A text of the given lines, each with its line feed. */
  function Text(lines: seq<seq<Byte>>): seq<Byte>
  {
    if lines == [] then [] else lines[0] + [LF] + Text(lines[1..])
  }

  lemma {:induction false} LineInFront(line: seq<Byte>, s: seq<Byte>)
    requires LF !in line
    ensures Lines(line + [LF] + s) == (if line == [] then [] else [line]) + Lines(s)
  {
    hide Lines;
    if line == [] {
      ByteInFront(LF, s);
      assert line + [LF] + s == [LF] + s;
    } else {
      var c, tail := line[0], line[1..];
      var rest := tail + [LF] + s;
      LineInFront(tail, s);
      assert line + [LF] + s == [c] + rest;
      assert rest[0] == if tail == [] then LF else tail[0];
      ByteInFront(c, rest);
      assert line == [c] + tail;
      if tail != [] {
        assert tail[0] != LF;
        assert Lines(rest)[0] == tail && Lines(rest)[1..] == Lines(s);
      } else {
        var none: seq<seq<Byte>> := [];
        assert line == [c] && none + Lines(s) == Lines(s) == Lines(rest);
        assert Lines([c] + rest) == [[c]] + Lines(rest);
      }
    }
  }

  /** The lines of a text are the non-empty ones it was made of. */
  lemma {:induction false} LinesOfText(lines: seq<seq<Byte>>)
    requires forall i :: 0 <= i < |lines| ==> LF !in lines[i]
    ensures Lines(Text(lines)) == Filter(lines, NonEmpty)
  {
    if lines != [] {
      LinesOfText(lines[1..]);
      LineInFront(lines[0], Text(lines[1..]));
      FilterCons(lines[0], lines[1..], NonEmpty);
      assert [lines[0]] + lines[1..] == lines;
      hide Lines, Filter;
    }
  }

  /** Whatever stands before `s`, all lines of `s` but the first are the last lines of the whole. */
  lemma {:induction false} LinesOfSuffix(front: seq<Byte>, s: seq<Byte>, n: nat)
    requires n < |Lines(s)|
    ensures n < |Lines(front + s)| && Last(Lines(front + s), n) == Last(Lines(s), n)
  {
    hide Lines, Last;
    if front == [] {
      assert front + s == s;
    } else {
      LinesOfSuffix(front[1..], s, n);
      var tail := front[1..] + s;
      assert front + s == [front[0]] + tail;
      ByteInFront(front[0], tail);
      SameLast(Lines(tail), Lines([front[0]] + tail), n);
    }
  }

  lemma SameLast<T>(s: seq<T>, t: seq<T>, n: nat)
    requires n < |s| && (t == s || (t != [] && (t[1..] == s || t[1..] == s[1..])))
    ensures n < |t| && Last(t, n) == Last(s, n)
  {
  }

  /** Reads backwards and returns exactly the last `tail` non-empty lines of the file, for every file, every
      chunk size and every margin of extra lines that is at least one. */
  method ReadTail(file: seq<Byte>, chunk: nat, tail: nat, margin: nat) returns (r: seq<seq<Byte>>)
    requires chunk > 0 && margin > 0
    ensures r == Last(Lines(file), tail)
  {
    hide Lines, Last;
    var collected: seq<Byte>, pos := [], |file|;
    while pos > 0
      invariant 0 <= pos <= |file| && collected == file[pos..]
    {
      var readSize := if chunk < pos then chunk else pos;
      pos := pos - readSize;
      collected := file[pos..pos + readSize] + collected;
      if |Lines(collected)| >= tail + margin {
        break;
      }
    }
    r := Last(Lines(collected), tail);
    assert file == file[..pos] + collected;
    if pos > 0 {
      LinesOfSuffix(file[..pos], collected, tail);
    } else {
      assert file[..0] == [];
    }
  }

  const CHUNK := 65536
  const MARGIN := 10

  /** The server's chunk size, margin and bounds on `tail`. */
  method ReadLog(file: seq<Byte>, requested: Option<int>) returns (r: seq<seq<Byte>>)
    ensures r == Last(Lines(file), TailOf(requested))
    ensures requested.Some? && 1 <= requested.value <= 1000 ==> r == Last(Lines(file), requested.value)
    ensures requested.None? ==> r == Last(Lines(file), 200)
    ensures requested.Some? && requested.value < 1 ==> r == Last(Lines(file), 1)
    ensures requested.Some? && requested.value > 1000 ==> r == Last(Lines(file), 1000)
  {
    r := ReadTail(file, CHUNK, TailOf(requested), MARGIN);
  }

  function TailOf(requested: Option<int>): (n: nat)
    ensures 1 <= n <= 1000
  {
    var n := if requested.Some? then requested.value else 200;
    if n < 1 then 1 else if n > 1000 then 1000 else n
  }
}
