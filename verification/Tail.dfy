/** The last lines of a dump. */
module Tail {
  import opened Protocol

  const NEWLINE: byte := 10

  // ----------------------------------------------------------------------- lines

  /** The length of the first line, with its newline if it has one. */
  function LineLen(s: seq<byte>): (n: nat)
    requires s != []
    ensures 0 < n <= |s|
  {
    if s[0] == NEWLINE || |s| == 1 then 1 else 1 + LineLen(s[1..])
  }

  lemma {:induction false} LineLenIs(s: seq<byte>)
    requires s != []
    ensures forall i :: 0 <= i < LineLen(s) - 1 ==> s[i] != NEWLINE
    ensures LineLen(s) < |s| ==> s[LineLen(s) - 1] == NEWLINE
  {
    if s[0] != NEWLINE && |s| > 1 {
      LineLenIs(s[1..]);
      assert forall i :: 1 <= i < |s| ==> s[i] == s[1..][i - 1];
    }
  }

  /** A text as its lines; a newline ends a line, so a trailing one begins no other. */
  function Lines(s: seq<byte>): seq<seq<byte>> {
    if s == [] then [] else [s[..LineLen(s)]] + Lines(s[LineLen(s)..])
  }

  function LastOf<T>(s: seq<T>, n: nat): seq<T> { if |s| <= n then s else s[|s| - n..] }

  /** The last n lines, or all of them when there are fewer. */
  function LastLines(s: seq<byte>, n: nat): seq<byte> { Flatten(LastOf(Lines(s), n)) }

  function Newlines(s: seq<byte>): nat {
    if s == [] then 0 else (if s[0] == NEWLINE then 1 else 0) + Newlines(s[1..])
  }

  lemma {:induction false} NewlinesAppend(a: seq<byte>, b: seq<byte>)
    ensures Newlines(a + b) == Newlines(a) + Newlines(b)
  {
    if a == [] {
      assert a + b == b;
    } else {
      assert (a + b)[1..] == a[1..] + b;
      NewlinesAppend(a[1..], b);
    }
  }

  lemma {:induction false} NoNewlines(s: seq<byte>)
    requires forall i :: 0 <= i < |s| ==> s[i] != NEWLINE
    ensures Newlines(s) == 0
  {
    if s != [] {
      NoNewlines(s[1..]);
    }
  }

  lemma {:induction false} FlattenLines(s: seq<byte>)
    ensures Flatten(Lines(s)) == s
    decreases |s|
  {
    if s != [] {
      FlattenLines(s[LineLen(s)..]);
    }
  }

  lemma {:induction false} LineLenAppend(a: seq<byte>, b: seq<byte>)
    requires a != [] && a[|a| - 1] == NEWLINE
    ensures LineLen(a + b) == LineLen(a)
  {
    if a[0] != NEWLINE {
      assert (a + b)[1..] == a[1..] + b;
      LineLenAppend(a[1..], b);
    }
  }

  /** Cutting a text after a newline cuts its list of lines. */
  lemma {:induction false} LinesSplit(a: seq<byte>, b: seq<byte>)
    requires a != [] ==> a[|a| - 1] == NEWLINE
    ensures Lines(a + b) == Lines(a) + Lines(b)
    decreases |a|
  {
    hide LineLen;
    if a == [] {
      assert a + b == b;
    } else {
      var n := LineLen(a);
      LineLenAppend(a, b);
      assert (a + b)[..n] == a[..n] && (a + b)[n..] == a[n..] + b;
      LinesSplit(a[n..], b);
      assert [a[..n]] + (Lines(a[n..]) + Lines(b)) == ([a[..n]] + Lines(a[n..])) + Lines(b);
    }
  }

  /** There is one line more than there are newlines before the last byte. */
  lemma {:induction false} CountLines(s: seq<byte>)
    requires s != []
    ensures |Lines(s)| == Newlines(s[..|s| - 1]) + 1
    decreases |s|
  {
    LineLenIs(s);
    var n := LineLen(s);
    var rest := s[n..];
    if rest == [] {
      NoNewlines(s[..|s| - 1]);
      assert Lines(rest) == [];
    } else {
      CountLines(rest);
      NoNewlines(s[..n - 1]);
      NewlinesAppend(s[..n - 1], [NEWLINE]);
      NewlinesAppend(s[..n], rest[..|rest| - 1]);
      assert [NEWLINE][1..] == [] && Newlines([NEWLINE]) == 1;
      assert s[..n] == s[..n - 1] + [NEWLINE];
      assert s[..|s| - 1] == s[..n] + rest[..|rest| - 1];
    }
  }

  /** Where the last n lines begin: after the n-th newline from the end, the last byte aside. */
  lemma StartOfLines(s: seq<byte>, r: nat, n: nat)
    requires s != [] && n > 0 && r < |s|
    requires if r == 0 then Newlines(s[..|s| - 1]) < n
             else s[r - 1] == NEWLINE && Newlines(s[r..|s| - 1]) == n - 1
    ensures LastLines(s, n) == s[r..]
  {
    var t := s[r..];
    CountLines(t);
    assert t[..|t| - 1] == s[r..|s| - 1];
    assert s == s[..r] + t;
    LinesSplit(s[..r], t);
    FlattenLines(t);
    assert LastOf(Lines(s), n) == Lines(t);
  }

  /** The last line of "a\nb\n" is its last two bytes; the one before begins the text. */
  lemma TwoLines()
    ensures LastLines([97, 10, 98, 10], 1) == [98, 10]
    ensures LastLines([97, 10, 98, 10], 2) == [97, 10, 98, 10]
  {
    var s := [97, 10, 98, 10];
    assert s[2..|s| - 1] == [98] && s[..|s| - 1] == [97, 10, 98] && s[0..] == s && s[2..] == [98, 10];
    assert [98][1..] == [] && Newlines([98]) == 0;
    assert [97, 10, 98][1..] == [10, 98] && [10, 98][1..] == [98];
    assert Newlines([97, 10, 98]) == 1;
    StartOfLines(s, 2, 1);
    StartOfLines(s, 0, 2);
  }

  /** `tail_line_start`, in Rust and in C. */
  method TailLineStart(buf: seq<byte>, lines: nat) returns (start: nat)
    ensures start <= |buf|
    ensures lines == 0 ==> start == 0
    ensures lines > 0 ==> buf[start..] == LastLines(buf, lines)
  {
    if lines == 0 || buf == [] {
      return 0;
    }
    var pos: nat := |buf|;
    ghost var last: nat := |buf| - 1;
    if pos > 0 && buf[pos - 1] == NEWLINE {
      pos := pos - 1;
    }
    var found := 0;
    while pos > 0
      invariant pos <= |buf| && (pos == |buf| ==> buf[last] != NEWLINE)
      invariant found == (if pos == |buf| then 0 else Newlines(buf[pos..last])) < lines
    {
      pos := pos - 1;
      if pos < last {
        assert buf[pos..last][1..] == buf[pos + 1..last];
      }
      if buf[pos] == NEWLINE {
        found := found + 1;
        if found == lines {
          StartOfLines(buf, pos + 1, lines);
          return pos + 1;
        }
      }
    }
    StartOfLines(buf, 0, lines);
    return 0;
  }

  // ----------------------------------------------------------------- composition

  lemma {:induction false} LinesOfLast(s: seq<byte>, k: nat)
    requires k <= |Lines(s)|
    ensures Lines(Flatten(Lines(s)[k..])) == Lines(s)[k..]
    decreases k
  {
    if k == 0 {
      FlattenLines(s);
    } else {
      var rest := s[LineLen(s)..];
      assert Lines(s)[k..] == Lines(rest)[k - 1..];
      LinesOfLast(rest, k - 1);
    }
  }

  /** The last m of the last n lines are the last min(m, n). */
  lemma LastLinesCompose(s: seq<byte>, m: nat, n: nat)
    ensures LastLines(LastLines(s, n), m) == LastLines(s, Min(m, n))
  {
    var all := Lines(s);
    var k := if |all| <= n then 0 else |all| - n;
    assert LastOf(all, n) == all[k..];
    LinesOfLast(s, k);
    assert LastOf(all[k..], m) == LastOf(all, Min(m, n));
  }

  // -------------------------------------------------------------- from a window

  /** The last n lines of the last k bytes of a text are the last n lines of the text exactly
      when they fit those bytes, even if they fill them to the edge. */
  lemma TailOfLast(p: seq<byte>, k: nat, n: nat)
    requires n > 0
    ensures LastLines(LastN(p, k), n) == LastLines(p, n) <==> |LastLines(p, n)| <= k
  {
    hide LastLines;
    LastLinesSuffix(LastN(p, k), n);
    if |LastLines(p, n)| <= k && |p| > k {
      TailOfSuffix(p, |p| - k, n);
    }
  }

  /** So the last n lines of what a history kept are those of all the output exactly when they
      fit the history. */
  lemma WindowedTail(p: seq<byte>, n: nat)
    requires n > 0
    ensures LastLines(Window(p), n) == LastLines(p, n) <==> |LastLines(p, n)| <= HISTORY_CAP
  {
    hide LastLines;
    TailOfLast(p, HISTORY_CAP, n);
  }

  /** The last lines are the end of the text, and begin it or follow a newline. */
  lemma LastLinesSuffix(s: seq<byte>, n: nat)
    ensures var t := LastLines(s, n);
            && |t| <= |s| && s[|s| - |t|..] == t
            && (|t| < |s| && n > 0 ==> s[|s| - |t| - 1] == NEWLINE && |Lines(t)| == n)
  {
    var all := Lines(s);
    var k := if |all| <= n then 0 else |all| - n;
    assert LastOf(all, n) == all[k..] && LastLines(s, n) == Flatten(all[k..]);
    hide LastLines, Lines, Flatten;
    LinesOfLast(s, k);
    var a := CutLines(s, k);
  }

  lemma LineEnds(s: seq<byte>)
    requires s != []
    ensures var line := s[..LineLen(s)];
            s == line + s[LineLen(s)..] && (LineLen(s) < |s| ==> line[|line| - 1] == NEWLINE)
  {
  }

  lemma NextLine(s: seq<byte>, k: nat)
    requires s != [] && 0 < k <= |Lines(s)|
    ensures |Lines(s)| == 1 + |Lines(s[LineLen(s)..])|
    ensures Lines(s)[k..] == Lines(s[LineLen(s)..])[k - 1..]
  {
  }

  lemma {:induction false} CutLines(s: seq<byte>, k: nat) returns (a: seq<byte>)
    requires k <= |Lines(s)|
    ensures s == a + Flatten(Lines(s)[k..])
    ensures a != [] && k < |Lines(s)| ==> a[|a| - 1] == NEWLINE
    ensures k == 0 ==> a == []
    decreases k
  {
    hide LineLen, Flatten;
    if k == 0 {
      FlattenLines(s);
      a := [];
    } else {
      var line, rest := s[..LineLen(s)], s[LineLen(s)..];
      NextLine(s, k);
      hide Lines;
      LineEnds(s);
      var more := CutLines(rest, k - 1);
      a := line + more;
      LineThenRest(line, more, Flatten(Lines(rest)[k - 1..]));
      assert more == [] ==> a == line;
      if rest == [] {
        NoLines();
      }
    }
  }

  lemma NoLines()
    ensures Lines([]) == []
  {
  }

  lemma LineThenRest(a: seq<byte>, b: seq<byte>, c: seq<byte>)
    ensures a + (b + c) == (a + b) + c
  {
  }

  /** Dropping bytes before the last lines leaves them. */
  lemma TailOfSuffix(p: seq<byte>, d: nat, n: nat)
    requires n > 0 && d > 0 && d + |LastLines(p, n)| <= |p|
    ensures LastLines(p[d..], n) == LastLines(p, n)
  {
    hide Lines, Flatten;
    var t := LastLines(p, n);
    LastLinesSuffix(p, n);
    var a := p[d..|p| - |t|];
    assert p[d..] == a + t;
    LinesSplit(a, t);
    FlattenLines(t);
    assert LastOf(Lines(a) + Lines(t), n) == Lines(t);
  }
}
