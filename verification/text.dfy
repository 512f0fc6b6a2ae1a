/**
 * Character-level helpers shared by the two ESPHome components: the
 * `std::string::find` / `find_first_not_of` / `find_last_not_of` searches,
 * the erase-based trim built from them, and the CR/LF line assembly both
 * components run over the bytes the UART delivers.
 */
module Text {
  import opened Common

  /** The characters the UART component trims: space, tab, CR, LF. */
  const UartBlanks: set<char> := {' ', '\t', '\r', '\n'}

  /** The characters the parser component trims: space and tab only. */
  const ParserBlanks: set<char> := {' ', '\t'}

  // ------------------------------------------------------------- searching

  /** `s.find(c)`: the first position holding c, None for npos. */
  function Find(s: string, c: char): (r: Option<nat>)
    ensures r.Some? ==> r.value < |s| && s[r.value] == c
    ensures r.Some? ==> forall k | 0 <= k < r.value :: s[k] != c
    ensures r.None? ==> forall k | 0 <= k < |s| :: s[k] != c
  {
    if |s| == 0 then None
    else if s[0] == c then Some(0)
    else match Find(s[1..], c)
      case None => None
      case Some(i) => Some(i + 1)
  }

  /**
   * `s.find_first_not_of(ws)`, with npos written as |s|: `erase(0, npos)`
   * and `erase(0, |s|)` remove the same characters.
   */
  function FirstNotIn(s: string, ws: set<char>): (r: nat)
    ensures r <= |s|
    ensures forall k | 0 <= k < r :: s[k] in ws
    ensures r < |s| ==> s[r] !in ws
  {
    if |s| == 0 || s[0] !in ws then 0 else FirstNotIn(s[1..], ws) + 1
  }

  /** `s.find_last_not_of(ws)`: the last position outside ws, None for npos. */
  function LastNotIn(s: string, ws: set<char>): (r: Option<nat>)
    ensures r.Some? ==> r.value < |s| && s[r.value] !in ws
    ensures r.Some? ==> forall k | r.value < k < |s| :: s[k] in ws
    ensures r.None? ==> forall k | 0 <= k < |s| :: s[k] in ws
  {
    if |s| == 0 then None
    else if s[|s| - 1] !in ws then Some(|s| - 1)
    else LastNotIn(s[..|s| - 1], ws)
  }

  // ------------------------------------------------------------------ trim

  /**
   * `s.erase(0, s.find_first_not_of(ws)); s.erase(s.find_last_not_of(ws) + 1)`.
   * When nothing survives the first erase, find_last_not_of gives npos and
   * npos + 1 wraps to 0, so the second erase keeps nothing.
   */
  function Trim(s: string, ws: set<char>): string
  {
    var t := s[FirstNotIn(s, ws)..];
    match LastNotIn(t, ws)
      case None => t[..0]
      case Some(j) => t[..j + 1]
  }

  /** Only characters of ws are ever removed, and only from the two ends. */
  predicate IsTrimOf(r: string, s: string, ws: set<char>)
  {
    exists i, j | 0 <= i <= j <= |s| ::
      r == s[i..j]
      && (forall k | 0 <= k < i :: s[k] in ws)
      && (forall k | j <= k < |s| :: s[k] in ws)
  }

  /** Nothing of ws is left at either end. */
  predicate Trimmed(r: string, ws: set<char>)
  {
    |r| == 0 || (r[0] !in ws && r[|r| - 1] !in ws)
  }

  /** Trim removes a run of ws from each end and leaves no ws at either end. */
  lemma TrimSlice(s: string, ws: set<char>) returns (i: nat, j: nat)
    ensures i <= j <= |s| && Trim(s, ws) == s[i..j]
    ensures forall k | 0 <= k < i :: s[k] in ws
    ensures forall k | j <= k < |s| :: s[k] in ws
    ensures Trimmed(Trim(s, ws), ws)
  {
    i := FirstNotIn(s, ws);
    var t := s[i..];
    match LastNotIn(t, ws) {
      case None =>
        j := i;
      case Some(l) =>
        j := i + l + 1;
        assert t[..l + 1] == s[i..j];
        forall k | j <= k < |s| ensures s[k] in ws {
          assert s[k] == t[k - i];
        }
    }
  }

  /** Trim(s) is the trim of s: a middle slice with only ws cut away and none left at its ends. */
  lemma TrimIsTrimOf(s: string, ws: set<char>)
    ensures IsTrimOf(Trim(s, ws), s, ws) && Trimmed(Trim(s, ws), ws)
  {
    var i, j := TrimSlice(s, ws);
  }

  /** There is only one trim: any slice that cuts only ws and leaves no ws at its ends is Trim(s). */
  lemma TrimUnique(r: string, s: string, ws: set<char>)
    requires IsTrimOf(r, s, ws) && Trimmed(r, ws)
    ensures r == Trim(s, ws)
  {
    var i, j :| 0 <= i <= j <= |s| && r == s[i..j]
      && (forall k | 0 <= k < i :: s[k] in ws) && (forall k | j <= k < |s| :: s[k] in ws);
    TrimUniqueAt(s, ws, i, j);
  }

  lemma TrimUniqueAt(s: string, ws: set<char>, i: nat, j: nat)
    requires i <= j <= |s| && Trimmed(s[i..j], ws)
    requires forall k | 0 <= k < i :: s[k] in ws
    requires forall k | j <= k < |s| :: s[k] in ws
    ensures s[i..j] == Trim(s, ws)
  {
    var i', j' := TrimSlice(s, ws);
    if i == j {
      forall k | 0 <= k < |s| ensures s[k] in ws {
      }
      TrimEmptyIff(s, ws);
    } else {
      assert s[i] !in ws && s[j - 1] !in ws;
      TrimEmptyIff(s, ws);
      assert i' < j';
      assert s[i'] !in ws && s[j' - 1] !in ws by {
        assert s[i'..j'][0] == s[i'];
        assert s[i'..j'][j' - i' - 1] == s[j' - 1];
      }
      assert i == i' && j == j';
    }
  }

  /** Trimming twice is trimming once. */
  lemma TrimIdempotent(s: string, ws: set<char>)
    ensures Trim(Trim(s, ws), ws) == Trim(s, ws)
  {
    var r := Trim(s, ws);
    var i, j := TrimSlice(s, ws);
    assert r == r[0..|r|];
    assert IsTrimOf(r, r, ws);
    TrimUnique(r, r, ws);
  }

  /** The trim is empty exactly when every character is in ws. */
  lemma TrimEmptyIff(s: string, ws: set<char>)
    ensures |Trim(s, ws)| == 0 <==> forall k | 0 <= k < |s| :: s[k] in ws
  {
    var i, j := TrimSlice(s, ws);
    if |Trim(s, ws)| == 0 {
      forall k | 0 <= k < |s| ensures s[k] in ws {
        if k >= i { assert k >= j; }
      }
    } else {
      assert s[i] == Trim(s, ws)[0];
    }
  }

  /** A string with no ws at its ends is its own trim. */
  lemma TrimKeepsTrimmed(s: string, ws: set<char>)
    requires Trimmed(s, ws)
    ensures Trim(s, ws) == s
  {
    assert s == s[0..|s|];
    assert IsTrimOf(s, s, ws);
    TrimUnique(s, s, ws);
  }

  /** Blanks around a trimmed string are cut away again. */
  lemma TrimPadded(pre: string, s: string, post: string, ws: set<char>)
    requires Trimmed(s, ws)
    requires forall k | 0 <= k < |pre| :: pre[k] in ws
    requires forall k | 0 <= k < |post| :: post[k] in ws
    ensures Trim(pre + s + post, ws) == s
  {
    var t := pre + s + post;
    assert s == t[|pre|..|pre| + |s|];
    assert forall k | |pre| + |s| <= k < |t| :: t[k] == post[k - |pre| - |s|];
    assert IsTrimOf(s, t, ws);
    TrimUnique(s, t, ws);
  }

  // --------------------------------------------------------- line assembly

  /** The two line terminators. */
  predicate IsEnd(c: char)
  {
    c == '\n' || c == '\r'
  }

  predicate NoEnds(s: string)
  {
    forall k | 0 <= k < |s| :: !IsEnd(s[k])
  }

  /**
   * One byte of `loop`: a terminator hands a non-empty buffer on as a line
   * and clears the buffer (an empty buffer yields no line); any other byte
   * is appended.
   */
  function Feed(buffer: string, c: char): (string, Option<string>)
  {
    if IsEnd(c) then
      if |buffer| == 0 then (buffer, None) else ("", Some(buffer))
    else (buffer + [c], None)
  }

  /**
   * `loop` over the bytes available: the lines handed to the parser, in
   * order, and the buffer left for the next call.
   */
  function Assemble(buffer: string, input: string): (r: (string, seq<string>))
    requires NoEnds(buffer)
    ensures NoEnds(r.0)
    ensures forall n | 0 <= n < |r.1| :: |r.1[n]| > 0 && NoEnds(r.1[n])
    decreases |input|
  {
    if |input| == 0 then (buffer, [])
    else
      var (b, line) := Feed(buffer, input[0]);
      assert NoEnds(b);
      var (rest, lines) := Assemble(b, input[1..]);
      (rest, (if line.Some? then [line.value] else []) + lines)
  }

  /** The loop as the source writes it: one byte at a time over the available input. */
  method ReadLines(buffer: string, input: string) returns (rest: string, lines: seq<string>)
    requires NoEnds(buffer)
    ensures (rest, lines) == Assemble(buffer, input)
  {
    rest, lines := buffer, [];
    var n := 0;
    assert input[0..] == input;
    assert [] + Assemble(buffer, input).1 == Assemble(buffer, input).1;
    while n < |input|
      invariant n <= |input| && NoEnds(rest)
      invariant var a := Assemble(rest, input[n..]); Assemble(buffer, input) == (a.0, lines + a.1)
    {
      assert input[n..][1..] == input[n + 1..];
      var c := input[n];
      var a := Assemble(rest, input[n..]);
      var (b, line) := Feed(rest, c);
      var emitted := if line.Some? then [line.value] else [];
      assert a == (Assemble(b, input[n + 1..]).0, emitted + Assemble(b, input[n + 1..]).1);
      assert lines + a.1 == (lines + emitted) + Assemble(b, input[n + 1..]).1;
      ghost var expected := lines + emitted;
      if IsEnd(c) {
        if |rest| > 0 {
          lines := lines + [rest];
          rest := "";
        }
      } else {
        rest := rest + [c];
      }
      assert rest == b && lines == expected;
      n := n + 1;
    }
    assert input[n..] == [];
    assert lines + [] == lines;
  }

  // ----------------------------------------------- reference: plain split

  /** The pieces between terminators: one more piece than there are terminators. */
  function Pieces(s: string): (r: seq<string>)
    ensures |r| > 0
    decreases |s|
  {
    match FirstEnd(s)
      case None => [s]
      case Some(i) => [s[..i]] + Pieces(s[i + 1..])
  }

  /** The first terminator, either kind. */
  function FirstEnd(s: string): (r: Option<nat>)
    ensures r.Some? ==> r.value < |s| && IsEnd(s[r.value])
    ensures r.Some? ==> NoEnds(s[..r.value])
    ensures r.None? ==> NoEnds(s)
  {
    if |s| == 0 then None
    else if IsEnd(s[0]) then Some(0)
    else match FirstEnd(s[1..])
      case None => None
      case Some(i) =>
        assert s[..i + 1] == [s[0]] + s[1..][..i];
        Some(i + 1)
  }

  /** The non-empty members of a sequence of strings, in order. */
  function NonEmpty(ss: seq<string>): (r: seq<string>)
    ensures |r| <= |ss|
  {
    if |ss| == 0 then []
    else (if |ss[0]| > 0 then [ss[0]] else []) + NonEmpty(ss[1..])
  }

  /** The line, if any, one byte hands on. */
  function Emitted(buffer: string, c: char): seq<string>
  {
    if IsEnd(c) && |buffer| > 0 then [buffer] else []
  }

  /** The buffer after one byte. */
  function Kept(buffer: string, c: char): string
  {
    if IsEnd(c) then "" else buffer + [c]
  }

  /** One byte of Assemble: what it hands on, then the rest of the input from the buffer it keeps. */
  lemma AssembleStep(buffer: string, input: string)
    requires NoEnds(buffer) && |input| > 0
    ensures NoEnds(Kept(buffer, input[0]))
    ensures var a := Assemble(Kept(buffer, input[0]), input[1..]);
      Assemble(buffer, input) == (a.0, Emitted(buffer, input[0]) + a.1)
  {
    var c := input[0];
    assert Feed(buffer, c).0 == Kept(buffer, c);
    assert NoEnds(Kept(buffer, c));
    var a := Assemble(Kept(buffer, c), input[1..]);
    if !IsEnd(c) || |buffer| == 0 {
      assert [] + a.1 == a.1;
    }
  }

  /** The piece after the last terminator. */
  function Pending(s: string): string
  {
    var p := Pieces(s); p[|p| - 1]
  }

  /** The non-empty pieces before the last terminator. */
  function Completed(s: string): seq<string>
  {
    var p := Pieces(s); NonEmpty(p[..|p| - 1])
  }

  /** A terminator right after the buffer completes the buffer as a piece. */
  lemma SplitAtEnd(buffer: string, input: string)
    requires NoEnds(buffer) && |input| > 0 && IsEnd(input[0])
    ensures Pending(buffer + input) == Pending(input[1..])
    ensures Completed(buffer + input) == Emitted(buffer, input[0]) + Completed(input[1..])
  {
    PiecesAfter(buffer, input);
    var q := Pieces(input[1..]);
    assert ([buffer] + q)[..|q|] == [buffer] + q[..|q| - 1];
    NonEmptyCons(buffer, q[..|q| - 1]);
  }

  /** With no terminator in the buffer the pieces of an empty input are the buffer alone. */
  lemma SplitOfBuffer(buffer: string)
    requires NoEnds(buffer)
    ensures Pending(buffer) == buffer && Completed(buffer) == []
  {
    NoEndsFirstEnd(buffer);
  }

  /**
   * The assembler is split-and-filter: starting from a buffer b, the lines
   * handed on are the non-empty pieces of b + input before its last
   * terminator, and the buffer kept is the piece after it.
   */
  lemma {:induction false} AssembleIsSplit(buffer: string, input: string)
    requires NoEnds(buffer)
    ensures Assemble(buffer, input) == (Pending(buffer + input), Completed(buffer + input))
    decreases |input|
  {
    if |input| == 0 {
      SplitOfBuffer(buffer);
      assert buffer + input == buffer;
    } else {
      AssembleStep(buffer, input);
      AssembleIsSplit(Kept(buffer, input[0]), input[1..]);
      if IsEnd(input[0]) {
        SplitEndStep(buffer, input);
      } else {
        var b := Kept(buffer, input[0]);
        var a := Assemble(b, input[1..]);
        SplitCharStep(buffer, input, b, a);
        assert [] + a.1 == a.1;
      }
    }
  }

  lemma SplitEndStep(buffer: string, input: string)
    requires NoEnds(buffer) && |input| > 0 && IsEnd(input[0])
    requires var a := Assemble("", input[1..]); a == (Pending("" + input[1..]), Completed("" + input[1..]))
    requires var a := Assemble("", input[1..]); Assemble(buffer, input) == (a.0, Emitted(buffer, input[0]) + a.1)
    ensures Assemble(buffer, input) == (Pending(buffer + input), Completed(buffer + input))
  {
    assert "" + input[1..] == input[1..];
    SplitAtEnd(buffer, input);
  }

  lemma SplitCharStep(buffer: string, input: string, b: string, a: (string, seq<string>))
    requires |input| > 0 && b == buffer + [input[0]]
    requires a == (Pending(b + input[1..]), Completed(b + input[1..]))
    ensures a == (Pending(buffer + input), Completed(buffer + input))
  {
    Regroup(buffer, input);
  }

  lemma Regroup(buffer: string, input: string)
    requires |input| > 0
    ensures (buffer + [input[0]]) + input[1..] == buffer + input
  {
    assert [input[0]] + input[1..] == input;
  }

  /** At a terminator right after the buffer, the buffer is the first piece. */
  lemma PiecesAfter(buffer: string, input: string)
    requires NoEnds(buffer) && |input| > 0 && IsEnd(input[0])
    ensures Pieces(buffer + input) == [buffer] + Pieces(input[1..])
  {
    var s := buffer + input;
    FirstEndAfter(buffer, input);
    assert s[..|buffer|] == buffer && s[|buffer| + 1..] == input[1..];
  }

  lemma NonEmptyCons(x: string, ss: seq<string>)
    ensures NonEmpty([x] + ss) == (if |x| > 0 then [x] else []) + NonEmpty(ss)
  {
    assert ([x] + ss)[1..] == ss;
  }

  lemma {:induction false} NoEndsFirstEnd(s: string)
    requires NoEnds(s)
    ensures FirstEnd(s).None?
    decreases |s|
  {
    if |s| > 0 {
      assert NoEnds(s[1..]) by { assert forall k | 0 <= k < |s| - 1 :: s[1..][k] == s[k + 1]; }
      NoEndsFirstEnd(s[1..]);
    }
  }

  /** A terminator with none before it is the first one. */
  lemma {:induction false} FirstEndAt(s: string, i: nat)
    requires i < |s| && IsEnd(s[i]) && NoEnds(s[..i])
    ensures FirstEnd(s) == Some(i)
    decreases i
  {
    if i > 0 {
      assert s[..i][0] == s[0];
      assert s[1..][..i - 1] == s[..i][1..];
      FirstEndAt(s[1..], i - 1);
    }
  }

  /** When the buffer holds no terminator and the input starts with one, the first terminator follows the buffer. */
  lemma FirstEndAfter(buffer: string, input: string)
    requires NoEnds(buffer) && |input| > 0 && IsEnd(input[0])
    ensures FirstEnd(buffer + input) == Some(|buffer|)
  {
    var s := buffer + input;
    assert s[..|buffer|] == buffer;
    FirstEndAt(s, |buffer|);
  }

  /** Every character that is not a terminator ends up in exactly one line or in the buffer, in order. */
  lemma {:induction false} AssembleKeepsText(buffer: string, input: string)
    requires NoEnds(buffer)
    ensures Concat(Assemble(buffer, input).1) + Assemble(buffer, input).0 == buffer + Strip(input)
    decreases |input|
  {
    if |input| > 0 {
      var c := input[0];
      AssembleStep(buffer, input);
      var b := Kept(buffer, c);
      AssembleKeepsText(b, input[1..]);
      var a := Assemble(b, input[1..]);
      assert Strip(input) == (if IsEnd(c) then [] else [c]) + Strip(input[1..]);
      if !IsEnd(c) {
        KeepsChar(buffer, c, a, Strip(input[1..]));
      } else if |buffer| > 0 {
        KeepsLine(buffer, c, a, Strip(input[1..]));
      } else {
        assert Emitted(buffer, c) + a.1 == a.1;
      }
    }
  }

  lemma KeepsChar(buffer: string, c: char, a: (string, seq<string>), rest: string)
    requires !IsEnd(c) && Concat(a.1) + a.0 == (buffer + [c]) + rest
    ensures Concat(Emitted(buffer, c) + a.1) + a.0 == buffer + ([c] + rest)
  {
    assert Emitted(buffer, c) + a.1 == a.1;
  }

  lemma KeepsLine(buffer: string, c: char, a: (string, seq<string>), rest: string)
    requires IsEnd(c) && |buffer| > 0 && Concat(a.1) + a.0 == "" + rest
    ensures Concat(Emitted(buffer, c) + a.1) + a.0 == buffer + ([] + rest)
  {
    ConcatAppend([buffer], a.1);
    assert Concat([buffer]) == buffer by { assert [buffer][1..] == []; }
    assert Concat([buffer] + a.1) + a.0 == buffer + (Concat(a.1) + a.0);
  }

  /** The input without its terminators. */
  function Strip(s: string): (r: string)
    ensures NoEnds(r) && |r| <= |s|
  {
    if |s| == 0 then "" else (if IsEnd(s[0]) then "" else [s[0]]) + Strip(s[1..])
  }

  /** All the strings run together. */
  function Concat(ss: seq<string>): string
  {
    if |ss| == 0 then "" else ss[0] + Concat(ss[1..])
  }

  lemma {:induction false} ConcatAppend(a: seq<string>, b: seq<string>)
    ensures Concat(a + b) == Concat(a) + Concat(b)
    decreases |a|
  {
    if |a| > 0 {
      assert (a + b)[1..] == a[1..] + b;
      ConcatAppend(a[1..], b);
    } else {
      assert a + b == b;
    }
  }

  /** A single line followed by a terminator, from an empty buffer, is handed on whole and leaves the buffer empty. */
  lemma AssembleOneLine(line: string, end: char)
    requires |line| > 0 && NoEnds(line) && IsEnd(end)
    ensures Assemble("", line + [end]) == ("", [line])
  {
    var s := "" + (line + [end]);
    assert s == line + [end];
    FirstEndAfter(line, [end]);
    assert s[..|line|] == line && s[|line| + 1..] == [];
    assert Pieces([]) == [[]];
    assert Pieces(s) == [line, []];
    AssembleIsSplit("", line + [end]);
    assert NonEmpty([line]) == [line] by { assert [line][1..] == []; }
  }
}
