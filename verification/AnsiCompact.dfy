/**
 The terminal-noise normaliser (internal/ansi/compact.go): a fast path that looks for
 anything to clean, and a slow path that cleans it.
 */
module AnsiCompact {
  import opened Lines

  const CR: byte := 13
  const TAB: byte := 9
  const SPACE: byte := 32
  const DEL: byte := 127

  type Bytes = seq<byte>

  predicate IsNoise(c: byte) { (c < SPACE && c != CR && c != NL && c != TAB) || c == DEL }

  predicate IsBlank(c: byte) { c == SPACE || c == TAB }

  // ---------------------------------------------------------------- the slow path, stage by stage

  function DropNoise(s: Bytes): Bytes {
    if s == [] then []
    else DropNoise(s[..|s| - 1]) + if IsNoise(s[|s| - 1]) then [] else [s[|s| - 1]]
  }

  /** strings.ReplaceAll(s, "\r\n", "\n") */
  function JoinCRLF(s: Bytes): Bytes {
    if s == [] then []
    else if |s| >= 2 && s[0] == CR && s[1] == NL then [NL] + JoinCRLF(s[2..])
    else [s[0]] + JoinCRLF(s[1..])
  }

  /** strings.Split(s, "\n") */
  function Split(s: Bytes): (lines: seq<Bytes>)
    ensures |lines| >= 1
  {
    if s == [] then [[]]
    else
      var rest := Split(s[1..]);
      if s[0] == NL then [[]] + rest else [[s[0]] + rest[0]] + rest[1..]
  }

  /** strings.Join(lines, "\n") */
  function Join(lines: seq<Bytes>): Bytes {
    if lines == [] then [] else if |lines| == 1 then lines[0] else lines[0] + [NL] + Join(lines[1..])
  }

  /** What a carriage return leaves visible: the part after the last one. */
  function AfterLastCR(line: Bytes): Bytes {
    if line == [] then []
    else if line[|line| - 1] == CR then []
    else AfterLastCR(line[..|line| - 1]) + [line[|line| - 1]]
  }

  function TrimBlanks(line: Bytes): Bytes {
    if line != [] && IsBlank(line[|line| - 1]) then TrimBlanks(line[..|line| - 1]) else line
  }

  function CleanLine(line: Bytes): Bytes { TrimBlanks(AfterLastCR(line)) }

  function CleanLines(lines: seq<Bytes>): seq<Bytes> {
    if lines == [] then [] else CleanLines(lines[..|lines| - 1]) + [CleanLine(lines[|lines| - 1])]
  }

  function LeadingNewlines(s: Bytes): (n: nat)
    ensures n <= |s| && (forall i :: 0 <= i < n ==> s[i] == NL) && (n < |s| ==> s[n] != NL)
  {
    if s == [] || s[0] != NL then 0 else 1 + LeadingNewlines(s[1..])
  }

  /** Every run of three or more newlines becomes two. */
  function FoldBlankLines(s: Bytes): Bytes {
    if s == [] then []
    else if s[0] != NL then [s[0]] + FoldBlankLines(s[1..])
    else
      var n := LeadingNewlines(s);
      (if n >= 3 then [NL, NL] else s[..n]) + FoldBlankLines(s[n..])
  }

  function TrimLeft(s: Bytes): Bytes { s[LeadingNewlines(s)..] }

  function TrimRight(s: Bytes): Bytes {
    if s != [] && s[|s| - 1] == NL then TrimRight(s[..|s| - 1]) else s
  }

  predicate EndsInBlankLine(s: Bytes) { |s| >= 2 && s[|s| - 1] == NL && s[|s| - 2] == NL }

  function TrimEdges(s: Bytes): Bytes {
    var t := TrimLeft(s);
    if EndsInBlankLine(t) then TrimRight(t) else t
  }

  function SlowPath(text: Bytes): Bytes {
    TrimEdges(FoldBlankLines(Join(CleanLines(Split(JoinCRLF(DropNoise(text)))))))
  }

  // ---------------------------------------------------------------- the fast path

  ghost predicate NoNoise(s: Bytes) { forall i :: 0 <= i < |s| ==> !IsNoise(s[i]) }
  ghost predicate NoReturn(s: Bytes) { forall i :: 0 <= i < |s| ==> s[i] != CR }
  ghost predicate NoTrailingBlank(s: Bytes) {
    forall i :: 0 <= i < |s| && IsBlank(s[i]) ==> i + 1 < |s| && s[i + 1] != NL
  }
  ghost predicate TrailAt(s: Bytes, i: int) { 0 <= i < |s| && IsBlank(s[i]) && (i + 1 >= |s| || s[i + 1] == NL) }
  ghost predicate TripleAt(s: Bytes, i: int) { 2 <= i < |s| && s[i - 2] == NL && s[i - 1] == NL && s[i] == NL }
  ghost predicate NoTriple(s: Bytes) { forall i :: 2 <= i < |s| ==> !TripleAt(s, i) }
  ghost predicate NoLeadingNewline(s: Bytes) { s != [] ==> s[0] != NL }

  /** Nothing to clean: what the fast path looks for. */
  ghost predicate LooksClean(s: Bytes) {
    NoNoise(s) && NoReturn(s) && NoTrailingBlank(s) && NoTriple(s) && NoLeadingNewline(s)
  }

  lemma TrailingBlanksByPlace(s: Bytes)
    ensures NoTrailingBlank(s) <==> !exists j :: 0 <= j < |s| && TrailAt(s, j)
  {
    if !exists j :: 0 <= j < |s| && TrailAt(s, j) {
      forall i | 0 <= i < |s| && IsBlank(s[i]) ensures i + 1 < |s| && s[i + 1] != NL {
        assert !TrailAt(s, i);
      }
    }
  }

  /** One scan with flags and a newline counter decides whether there is anything to clean. */
  method NeedsCompact(text: Bytes) returns (needed: bool)
    ensures needed <==> !LooksClean(text)
  {
    var hasControl, hasCr, hasTrailingSpace := false, false, false;
    var blankRun, maxBlankRun := 0, 0;
    for i := 0 to |text|
      invariant hasControl <==> exists j :: 0 <= j < i && IsNoise(text[j])
      invariant hasCr <==> exists j :: 0 <= j < i && text[j] == CR
      invariant hasTrailingSpace <==> exists j :: 0 <= j < i && TrailAt(text, j)
      invariant 0 <= blankRun <= i && blankRun <= maxBlankRun
      invariant forall j :: i - blankRun <= j < i ==> text[j] == NL
      invariant blankRun < i ==> text[i - blankRun - 1] != NL
      invariant maxBlankRun >= 3 <==> exists j :: 2 <= j < i && TripleAt(text, j)
    {
      var c := text[i];
      if c < SPACE && c != CR && c != NL && c != TAB {
        hasControl := true;
      }
      if c == DEL {
        hasControl := true;
      }
      if c == CR {
        hasCr := true;
      }
      assert TrailAt(text, i) <==> (c == SPACE || c == TAB) && (i + 1 >= |text| || text[i + 1] == NL);
      if c == SPACE || c == TAB {
        if i + 1 >= |text| || text[i + 1] == NL {
          hasTrailingSpace := true;
        }
      }
      if c == NL {
        assert TripleAt(text, i) <==> blankRun >= 2;
        blankRun := blankRun + 1;
        if blankRun > maxBlankRun {
          maxBlankRun := blankRun;
        }
      } else {
        assert !TripleAt(text, i);
        blankRun := 0;
      }
    }
    TrailingBlanksByPlace(text);
    if text != [] && text[0] == NL {
      return true;
    }
    needed := hasControl || hasCr || hasTrailingSpace || maxBlankRun >= 3;
  }

  ghost function Compacted(text: Bytes): Bytes {
    if LooksClean(text) then text else SlowPath(text)
  }

  method Compact(text: Bytes) returns (out: Bytes)
    ensures out == Compacted(text)
  {
    if text == [] {
      return [];
    }
    var needed := NeedsCompact(text);
    if !needed {
      return text;
    }
    var cleaned: Bytes := [];
    for i := 0 to |text|
      invariant cleaned == DropNoise(text[..i])
    {
      assert text[..i + 1][..i] == text[..i];
      if !IsNoise(text[i]) {
        cleaned := cleaned + [text[i]];
      }
    }
    assert text[..|text|] == text;
    var lines := Split(JoinCRLF(cleaned));
    var result: seq<Bytes> := [];
    for i := 0 to |lines|
      invariant result == CleanLines(lines[..i])
    {
      assert lines[..i + 1][..i] == lines[..i];
      result := result + [TrimBlanks(AfterLastCR(lines[i]))];
    }
    assert lines[..|lines|] == lines;
    out := TrimEdges(FoldBlankLines(Join(result)));
  }

  // ---------------------------------------------------------------- the slow path cleans

  ghost predicate GoodLine(l: Bytes) {
    && (forall i :: 0 <= i < |l| ==> !IsNoise(l[i]) && l[i] != CR && l[i] != NL)
    && (l != [] ==> !IsBlank(l[|l| - 1]))
  }

  lemma {:induction false} DropNoiseClean(s: Bytes)
    ensures NoNoise(DropNoise(s))
  {
    if s != [] {
      DropNoiseClean(s[..|s| - 1]);
    }
  }

  lemma {:induction false} JoinCRLFKeepsNoNoise(s: Bytes)
    requires NoNoise(s)
    ensures NoNoise(JoinCRLF(s))
  {
    if s != [] {
      if |s| >= 2 && s[0] == CR && s[1] == NL {
        JoinCRLFKeepsNoNoise(s[2..]);
      } else {
        JoinCRLFKeepsNoNoise(s[1..]);
      }
    }
  }

  /** Split lines hold no newline and only characters of the text. */
  lemma {:induction false} SplitLines(s: Bytes)
    requires NoNoise(s)
    ensures forall k :: 0 <= k < |Split(s)| ==> NoNoise(Split(s)[k]) && (forall i :: 0 <= i < |Split(s)[k]| ==> Split(s)[k][i] != NL)
  {
    if s != [] {
      SplitLines(s[1..]);
    }
  }

  lemma {:induction false} AfterLastCRClean(l: Bytes)
    requires NoNoise(l) && forall i :: 0 <= i < |l| ==> l[i] != NL
    ensures var r := AfterLastCR(l); NoNoise(r) && NoReturn(r) && forall i :: 0 <= i < |r| ==> r[i] != NL
  {
    if l != [] {
      AfterLastCRClean(l[..|l| - 1]);
    }
  }

  lemma {:induction false} TrimBlanksPrefix(l: Bytes)
    ensures TrimBlanks(l) <= l && (TrimBlanks(l) != [] ==> !IsBlank(TrimBlanks(l)[|TrimBlanks(l)| - 1]))
  {
    if l != [] && IsBlank(l[|l| - 1]) {
      TrimBlanksPrefix(l[..|l| - 1]);
    }
  }

  lemma CleanLineGood(l: Bytes)
    requires NoNoise(l) && forall i :: 0 <= i < |l| ==> l[i] != NL
    ensures GoodLine(CleanLine(l))
  {
    AfterLastCRClean(l);
    TrimBlanksPrefix(AfterLastCR(l));
  }

  lemma {:induction false} CleanLinesGood(lines: seq<Bytes>)
    requires forall k :: 0 <= k < |lines| ==> NoNoise(lines[k]) && forall i :: 0 <= i < |lines[k]| ==> lines[k][i] != NL
    ensures |CleanLines(lines)| == |lines|
    ensures forall k :: 0 <= k < |lines| ==> GoodLine(CleanLines(lines)[k])
  {
    if lines != [] {
      CleanLinesGood(lines[..|lines| - 1]);
      CleanLineGood(lines[|lines| - 1]);
    }
  }

  ghost predicate CleanInside(s: Bytes) { NoNoise(s) && NoReturn(s) && NoTrailingBlank(s) }

  lemma {:induction false} JoinClean(lines: seq<Bytes>)
    requires forall k :: 0 <= k < |lines| ==> GoodLine(lines[k])
    ensures CleanInside(Join(lines))
  {
    if |lines| > 1 {
      var l, rest := lines[0], Join(lines[1..]);
      JoinClean(lines[1..]);
      var s := l + [NL] + rest;
      assert GoodLine(l);
      forall i | 0 <= i < |s| && IsBlank(s[i]) ensures i + 1 < |s| && s[i + 1] != NL {
        if i < |l| {
          assert i + 1 < |l|;
        } else {
          assert s[i] == rest[i - |l| - 1] && s[i + 1] == rest[i - |l|];
        }
      }
    } else if |lines| == 1 {
      assert GoodLine(lines[0]);
    }
  }

  lemma {:induction false} FoldClean(s: Bytes)
    requires CleanInside(s)
    ensures CleanInside(FoldBlankLines(s)) && NoTriple(FoldBlankLines(s))
    decreases |s|
  {
    if s != [] {
      if s[0] != NL {
        FoldClean(s[1..]);
        ConsClean(s[0], FoldBlankLines(s[1..]), s);
      } else {
        var n := LeadingNewlines(s);
        FoldClean(s[n..]);
        PrependNewlines(if n >= 3 then [NL, NL] else s[..n], FoldBlankLines(s[n..]));
      }
    }
  }

  lemma ConsClean(c: byte, t: Bytes, s: Bytes)
    requires CleanInside(s) && s != [] && s[0] == c && c != NL
    requires CleanInside(t) && NoTriple(t) && (t == []) == (|s| == 1) && (t != [] ==> t[0] == s[1])
    ensures CleanInside([c] + t) && NoTriple([c] + t)
  {
    var u := [c] + t;
    forall i | 0 <= i < |u| && IsBlank(u[i]) ensures i + 1 < |u| && u[i + 1] != NL {
      if i > 0 {
        assert u[i] == t[i - 1];
      }
    }
    forall i | 2 <= i < |u| ensures !TripleAt(u, i) {
      if i > 2 {
        assert !TripleAt(t, i - 1);
      }
    }
  }

  lemma PrependNewlines(run: Bytes, t: Bytes)
    requires 1 <= |run| <= 2 && forall i :: 0 <= i < |run| ==> run[i] == NL
    requires CleanInside(t) && NoTriple(t) && (t != [] ==> t[0] != NL)
    ensures CleanInside(run + t) && NoTriple(run + t)
  {
    var u := run + t;
    forall i | 0 <= i < |u| && IsBlank(u[i]) ensures i + 1 < |u| && u[i + 1] != NL {
      assert u[i] == t[i - |run|];
    }
    forall i | 2 <= i < |u| ensures !TripleAt(u, i) {
      if i - |run| >= 2 {
        assert !TripleAt(t, i - |run|);
      } else {
        assert u[|run|] == t[0];
      }
    }
  }

  lemma TrimLeftClean(s: Bytes)
    requires CleanInside(s) && NoTriple(s)
    ensures LooksClean(TrimLeft(s))
  {
    var n := LeadingNewlines(s);
    var t := TrimLeft(s);
    assert forall i :: 0 <= i < |t| ==> t[i] == s[i + n];
    forall i | 2 <= i < |t| ensures !TripleAt(t, i) {
      assert !TripleAt(s, i + n);
    }
  }

  lemma {:induction false} TrimRightPrefix(s: Bytes)
    ensures var t := TrimRight(s);
            && t <= s && (forall i :: |t| <= i < |s| ==> s[i] == NL) && (t != [] ==> t[|t| - 1] != NL)
  {
    if s != [] && s[|s| - 1] == NL {
      TrimRightPrefix(s[..|s| - 1]);
    }
  }

  lemma TrimRightClean(s: Bytes)
    requires LooksClean(s)
    ensures LooksClean(TrimRight(s))
  {
    TrimRightPrefix(s);
    var t := TrimRight(s);
    forall i | 0 <= i < |t| && IsBlank(t[i]) ensures i + 1 < |t| && t[i + 1] != NL {
      assert IsBlank(s[i]) && s[i + 1] != NL;
      assert i + 1 < |t|;
    }
    forall i | 2 <= i < |t| ensures !TripleAt(t, i) {
      assert !TripleAt(s, i);
    }
  }

  /** Whatever goes in, what the slow path returns has nothing left to clean. */
  lemma SlowPathCleans(text: Bytes)
    ensures LooksClean(SlowPath(text))
  {
    var a := DropNoise(text);
    DropNoiseClean(text);
    JoinCRLFKeepsNoNoise(a);
    SplitLines(JoinCRLF(a));
    CleanLinesGood(Split(JoinCRLF(a)));
    var j := Join(CleanLines(Split(JoinCRLF(a))));
    JoinClean(CleanLines(Split(JoinCRLF(a))));
    FoldClean(j);
    TrimLeftClean(FoldBlankLines(j));
    TrimRightClean(TrimLeft(FoldBlankLines(j)));
  }

  // ---------------------------------------------------------------- and leaves clean text alone

  lemma {:induction false} DropNoiseSame(s: Bytes)
    requires NoNoise(s)
    ensures DropNoise(s) == s
  {
    if s != [] {
      DropNoiseSame(s[..|s| - 1]);
    }
  }

  lemma {:induction false} JoinCRLFSame(s: Bytes)
    requires NoReturn(s)
    ensures JoinCRLF(s) == s
  {
    if s != [] {
      JoinCRLFSame(s[1..]);
    }
  }

  lemma {:induction false} JoinSplit(s: Bytes)
    ensures Join(Split(s)) == s
  {
    if s != [] {
      var rest := Split(s[1..]);
      JoinSplit(s[1..]);
      if s[0] == NL {
        assert ([[]] + rest)[1..] == rest;
      } else {
        assert ([[s[0]] + rest[0]] + rest[1..])[1..] == rest[1..];
      }
    }
  }

  ghost predicate CleanEnd(l: Bytes) { NoReturn(l) && (l != [] ==> !IsBlank(l[|l| - 1])) }

  lemma {:induction false} SplitOfClean(s: Bytes)
    requires CleanInside(s)
    ensures forall k :: 0 <= k < |Split(s)| ==> CleanEnd(Split(s)[k])
    ensures Split(s)[0] == [] ==> s == [] || s[0] == NL
  {
    if s != [] {
      var t, rest := s[1..], Split(s[1..]);
      TailStaysClean(s);
      SplitOfClean(t);
      if s[0] != NL {
        assert CleanEnd(rest[0]);
        var first := [s[0]] + rest[0];
        assert s[0] != CR;
        assert CleanEnd(first);
        assert Split(s) == [first] + rest[1..];
      } else {
        assert Split(s) == [[]] + rest;
      }
    }
  }

  lemma TailStaysClean(s: Bytes)
    requires CleanInside(s) && s != []
    ensures CleanInside(s[1..])
  {
    var t := s[1..];
    forall i | 0 <= i < |t| && IsBlank(t[i]) ensures i + 1 < |t| && t[i + 1] != NL {
      assert IsBlank(s[i + 1]);
    }
  }

  lemma {:induction false} AfterLastCRSame(l: Bytes)
    requires NoReturn(l)
    ensures AfterLastCR(l) == l
  {
    if l != [] {
      AfterLastCRSame(l[..|l| - 1]);
    }
  }

  lemma {:induction false} CleanLinesSame(lines: seq<Bytes>)
    requires forall k :: 0 <= k < |lines| ==> CleanEnd(lines[k])
    ensures CleanLines(lines) == lines
  {
    if lines != [] {
      assert CleanEnd(lines[|lines| - 1]);
      CleanLinesSame(lines[..|lines| - 1]);
      AfterLastCRSame(lines[|lines| - 1]);
    }
  }

  lemma {:induction false} FoldSame(s: Bytes)
    requires NoTriple(s)
    ensures FoldBlankLines(s) == s
    decreases |s|
  {
    if s != [] {
      var n := if s[0] == NL then LeadingNewlines(s) else 1;
      var t := s[n..];
      forall i | 2 <= i < |t| ensures !TripleAt(t, i) {
        assert !TripleAt(s, i + n);
      }
      FoldSame(t);
      if n >= 3 {
        assert TripleAt(s, 2);
      }
    }
  }

  /**
   On text the fast path lets through, the skipped slow path would have changed nothing
   exactly when the text does not end in a blank line.
   */
  lemma FastPathSkipsNothingIff(text: Bytes)
    requires LooksClean(text)
    ensures SlowPath(text) == text <==> !EndsInBlankLine(text)
  {
    DropNoiseSame(text);
    JoinCRLFSame(text);
    SplitOfClean(text);
    CleanLinesSame(Split(text));
    JoinSplit(text);
    FoldSame(text);
    assert TrimLeft(text) == text;
    TrimRightPrefix(text);
  }

  /** Compact always returns text the fast path lets through, so compacting twice is compacting once. */
  lemma CompactIsIdempotent(text: Bytes)
    ensures LooksClean(Compacted(text))
    ensures Compacted(Compacted(text)) == Compacted(text)
  {
    SlowPathCleans(text);
  }

  // ---------------------------------------------------------------- the slow path, read off the raw text

  /** The next byte that is not noise is a newline. */
  predicate NewlineNext(s: Bytes) {
    s != [] && if IsNoise(s[0]) then NewlineNext(s[1..]) else s[0] == NL
  }

  /**
   The lines of a raw text in one scan: noise is skipped, a return right before a newline belongs
   to it, and any other return discards the line so far, which is `row`.
   */
  function RowsFrom(row: Bytes, s: Bytes): seq<Bytes>
    decreases |s|
  {
    if s == [] then [row]
    else if IsNoise(s[0]) then RowsFrom(row, s[1..])
    else if s[0] == NL then [row] + RowsFrom([], s[1..])
    else if s[0] == CR then RowsFrom(if NewlineNext(s[1..]) then row else [], s[1..])
    else RowsFrom(row + [s[0]], s[1..])
  }

  function Rows(text: Bytes): seq<Bytes> { RowsFrom([], text) }

  function Trimmed(rows: seq<Bytes>): seq<Bytes> {
    if rows == [] then [] else [TrimBlanks(rows[0])] + Trimmed(rows[1..])
  }

  /** Keeps a newline unless two came right before it; `run` counts the newlines before `s`. */
  function Thin(s: Bytes, run: nat): Bytes {
    if s == [] then []
    else if s[0] == NL then (if run >= 2 then [] else [NL]) + Thin(s[1..], run + 1)
    else [s[0]] + Thin(s[1..], 0)
  }

  /** Dropping noise is a filter: it goes byte by byte, and a byte goes exactly when it is noise. */
  lemma {:induction false} DropNoiseAppend(a: Bytes, b: Bytes)
    ensures DropNoise(a + b) == DropNoise(a) + DropNoise(b)
  {
    if b == [] {
      assert a + b == a;
    } else {
      var front, last := b[..|b| - 1], if IsNoise(b[|b| - 1]) then [] else [b[|b| - 1]];
      assert (a + b)[..|a + b| - 1] == a + front;
      DropNoiseAppend(a, front);
      assert (DropNoise(a) + DropNoise(front)) + last == DropNoise(a) + (DropNoise(front) + last);
    }
  }

  lemma DropNoiseCons(s: Bytes)
    requires s != []
    ensures DropNoise(s) == (if IsNoise(s[0]) then [] else [s[0]]) + DropNoise(s[1..])
  {
    assert s == [s[0]] + s[1..];
    DropNoiseAppend([s[0]], s[1..]);
    assert [s[0]][..0] == [];
  }

  lemma {:induction false} NewlineNextWithoutNoise(s: Bytes)
    ensures NewlineNext(DropNoise(s)) <==> NewlineNext(s)
  {
    if s != [] {
      DropNoiseCons(s);
      DropNoiseClean(s);
      NewlineNextWithoutNoise(s[1..]);
    }
  }

  lemma {:induction false} RowsWithoutNoise(row: Bytes, s: Bytes)
    ensures RowsFrom(row, DropNoise(s)) == RowsFrom(row, s)
    decreases |s|
  {
    if s != [] {
      var t := DropNoise(s);
      DropNoiseCons(s);
      DropNoiseClean(s);
      if IsNoise(s[0]) {
        assert t == DropNoise(s[1..]);
        RowsWithoutNoise(row, s[1..]);
      } else {
        assert t[0] == s[0] && t[1..] == DropNoise(s[1..]);
        NewlineNextWithoutNoise(s[1..]);
        RowsWithoutNoise(row, s[1..]);
        RowsWithoutNoise([], s[1..]);
        RowsWithoutNoise(row + [s[0]], s[1..]);
      }
    }
  }

  /** The lines when every return discards. */
  ghost function PlainRows(row: Bytes, s: Bytes): seq<Bytes>
    decreases |s|
  {
    if s == [] then [row]
    else if s[0] == NL then [row] + PlainRows([], s[1..])
    else if s[0] == CR then PlainRows([], s[1..])
    else PlainRows(row + [s[0]], s[1..])
  }

  lemma {:induction false} RowsOfJoined(row: Bytes, s: Bytes)
    requires NoNoise(s)
    ensures PlainRows(row, JoinCRLF(s)) == RowsFrom(row, s)
    decreases |s|
  {
    if s != [] {
      var t, rest := JoinCRLF(s), s[1..];
      assert NewlineNext(rest) <==> |s| >= 2 && s[1] == NL;
      if |s| >= 2 && s[0] == CR && s[1] == NL {
        assert t[1..] == JoinCRLF(s[2..]) && rest[1..] == s[2..];
        RowsOfJoined([], s[2..]);
      } else {
        assert t[0] == s[0] && t[1..] == JoinCRLF(rest);
        RowsOfJoined(if s[0] == NL || s[0] == CR then [] else row + [s[0]], rest);
      }
    }
  }

  /** What is left of a line that already held `row`. */
  ghost function Rest(row: Bytes, l: Bytes): Bytes { if CR in l then AfterLastCR(l) else row + l }

  ghost function Rests(lines: seq<Bytes>): seq<Bytes> {
    if lines == [] then [] else [AfterLastCR(lines[0])] + Rests(lines[1..])
  }

  lemma {:induction false} AfterLastCRCons(c: byte, l: Bytes)
    ensures AfterLastCR([c] + l) == if CR in l then AfterLastCR(l) else if c == CR then l else [c] + l
  {
    var u := [c] + l;
    if l == [] {
      assert u[..0] == [];
    } else {
      var front := l[..|l| - 1];
      assert u[..|u| - 1] == [c] + front && l == front + [l[|l| - 1]];
      AfterLastCRCons(c, front);
      if l[|l| - 1] != CR && CR !in l {
        assert front + [l[|l| - 1]] == l;
      }
    }
  }

  lemma RestCons(row: Bytes, c: byte, l: Bytes)
    ensures Rest(row, [c] + l) == if c == CR then Rest([], l) else Rest(row + [c], l)
  {
    AfterLastCRCons(c, l);
    assert row + ([c] + l) == (row + [c]) + l && [] + l == l;
    assert CR in [c] + l <==> c == CR || CR in l;
  }

  lemma {:induction false} RowsByLine(row: Bytes, s: Bytes)
    ensures PlainRows(row, s) == [Rest(row, Split(s)[0])] + Rests(Split(s)[1..])
    decreases |s|
  {
    if s == [] {
      assert Split(s)[1..] == [] && row + [] == row;
    } else {
      var rest := Split(s[1..]);
      if s[0] == NL {
        assert Split(s)[1..] == rest && row + [] == row;
        RowsByLine([], s[1..]);
        RestOfWhole(rest[0]);
      } else {
        assert Split(s)[1..] == rest[1..] && Split(s)[0] == [s[0]] + rest[0];
        RestCons(row, s[0], rest[0]);
        RowsByLine(if s[0] == CR then [] else row + [s[0]], s[1..]);
      }
    }
  }

  lemma RestOfWhole(l: Bytes)
    ensures Rest([], l) == AfterLastCR(l)
  {
    if CR !in l {
      assert NoReturn(l);
      AfterLastCRSame(l);
      assert [] + l == l;
    }
  }

  lemma {:induction false} CleanLinesCons(lines: seq<Bytes>)
    requires lines != []
    ensures CleanLines(lines) == [CleanLine(lines[0])] + CleanLines(lines[1..])
  {
    if |lines| == 1 {
      assert lines[..0] == [];
    } else {
      var front, rest, last := lines[..|lines| - 1], lines[1..], CleanLine(lines[|lines| - 1]);
      CleanLinesCons(front);
      assert front[1..] == rest[..|rest| - 1];
      assert CleanLines(rest) == CleanLines(front[1..]) + [last];
      assert [CleanLine(lines[0])] + CleanLines(front[1..]) + [last] == [CleanLine(lines[0])] + (CleanLines(front[1..]) + [last]);
    }
  }

  lemma {:induction false} CleanedAreTrimmed(lines: seq<Bytes>)
    ensures CleanLines(lines) == Trimmed(Rests(lines))
  {
    if lines != [] {
      CleanLinesCons(lines);
      CleanedAreTrimmed(lines[1..]);
      assert Rests(lines)[1..] == Rests(lines[1..]);
    }
  }

  lemma LinesAreTrimmedRows(text: Bytes)
    ensures CleanLines(Split(JoinCRLF(DropNoise(text)))) == Trimmed(Rows(text))
  {
    var a := DropNoise(text);
    var lines := Split(JoinCRLF(a));
    DropNoiseClean(text);
    RowsWithoutNoise([], text);
    RowsOfJoined([], a);
    RowsByLine([], JoinCRLF(a));
    RestOfWhole(lines[0]);
    assert Rows(text) == Rests(lines);
    CleanedAreTrimmed(lines);
  }

  /** The trailing blanks go, all of them and nothing else. */
  lemma {:induction false} TrimBlanksIs(l: Bytes)
    ensures var t := TrimBlanks(l);
            && t <= l && (forall i :: |t| <= i < |l| ==> IsBlank(l[i]))
            && (t != [] ==> !IsBlank(t[|t| - 1]))
  {
    if l != [] && IsBlank(l[|l| - 1]) {
      TrimBlanksIs(l[..|l| - 1]);
    }
  }

  lemma {:induction false} ThinRun(s: Bytes, n: nat, run: nat)
    requires n <= |s| && forall i :: 0 <= i < n ==> s[i] == NL
    ensures Thin(s, run) == Newline(if run >= 2 then 0 else if run + n >= 2 then 2 - run else n) + Thin(s[n..], run + n)
    decreases n
  {
    if n > 0 {
      ThinRun(s[1..], n - 1, run + 1);
      assert s[1..][n - 1..] == s[n..];
    } else {
      assert s[0..] == s;
    }
  }

  function Newline(n: nat): Bytes { if n == 0 then [] else [NL] + Newline(n - 1) }

  lemma {:induction false} NewlineRun(s: Bytes)
    requires forall i :: 0 <= i < |s| ==> s[i] == NL
    ensures s == Newline(|s|)
  {
    if s != [] {
      NewlineRun(s[1..]);
      assert s == [NL] + s[1..];
    }
  }

  lemma ThinAfter(s: Bytes, run: nat)
    requires s == [] || s[0] != NL
    ensures Thin(s, run) == Thin(s, 0)
  {
  }

  /** Folding blank lines keeps exactly the newlines that do not follow two others. */
  lemma {:induction false} FoldIsThin(s: Bytes)
    ensures FoldBlankLines(s) == Thin(s, 0)
    decreases |s|
  {
    if s != [] {
      if s[0] != NL {
        FoldIsThin(s[1..]);
      } else {
        var n := LeadingNewlines(s);
        ThinRun(s, n, 0);
        ThinAfter(s[n..], n);
        FoldIsThin(s[n..]);
        NewlineRun(s[..n]);
        assert [NL, NL] == Newline(2);
      }
    }
  }

  /** All leading newlines go; the trailing ones go exactly when there are two or more. */
  lemma TrimEdgesIs(s: Bytes, lead: nat, body: Bytes, trail: nat)
    requires s == Newline(lead) + body + Newline(trail) && body != [] && body[0] != NL && body[|body| - 1] != NL
    ensures TrimEdges(s) == body + Newline(if trail >= 2 then 0 else trail)
  {
    NewlinesOnly(lead);
    assert s == Newline(lead) + (body + Newline(trail));
    LeadIs(s, lead);
    assert TrimLeft(s) == body + Newline(trail);
    TrimTrail(body, trail);
  }

  lemma {:induction false} LeadIs(s: Bytes, lead: nat)
    requires lead < |s| && s[lead] != NL && forall i :: 0 <= i < lead ==> s[i] == NL
    ensures LeadingNewlines(s) == lead
    decreases lead
  {
    if lead > 0 {
      LeadIs(s[1..], lead - 1);
    }
  }

  lemma {:induction false} TrimTrail(body: Bytes, trail: nat)
    requires body != [] && body[|body| - 1] != NL
    ensures var t := body + Newline(trail);
            && (EndsInBlankLine(t) <==> trail >= 2)
            && TrimRight(t) == body
    decreases trail
  {
    var t := body + Newline(trail);
    NewlinesOnly(trail);
    if trail == 0 {
      assert t == body;
    } else {
      NewlinesOnly(trail - 1);
      assert t[..|t| - 1] == body + Newline(trail - 1);
      TrimTrail(body, trail - 1);
      assert t[|t| - 1] == NL;
    }
  }

  lemma {:induction false} NewlinesOnly(n: nat)
    ensures |Newline(n)| == n && forall i :: 0 <= i < n ==> Newline(n)[i] == NL
  {
    if n > 0 {
      NewlinesOnly(n - 1);
    }
  }

  /** A text of newlines only leaves nothing. */
  lemma TrimEdgesOfNewlines(n: nat)
    ensures TrimEdges(Newline(n)) == []
  {
    NewlinesOnly(n);
    assert LeadingNewlines(Newline(n)) == n;
  }

  /**
   The whole slow path, stage by stage against the raw text: its lines in one scan, without
   their trailing blanks, joined again, without newlines that follow two others, without
   newlines at the edges.
   */
  lemma SlowPathIs(text: Bytes)
    ensures SlowPath(text) == TrimEdges(Thin(Join(Trimmed(Rows(text))), 0))
  {
    LinesAreTrimmedRows(text);
    FoldIsThin(Join(Trimmed(Rows(text))));
  }

  // ---------------------------------------------------------------- and keeps the ink of every line after its last return

  predicate IsInk(c: byte) { !IsNoise(c) && !IsBlank(c) && c != NL && c != CR }

  function Ink(s: Bytes): Bytes {
    if s == [] then [] else (if IsInk(s[0]) then [s[0]] else []) + Ink(s[1..])
  }

  function RowsInk(rows: seq<Bytes>): Bytes {
    if rows == [] then [] else Ink(rows[0]) + RowsInk(rows[1..])
  }

  lemma {:induction false} InkAppend(a: Bytes, b: Bytes)
    ensures Ink(a + b) == Ink(a) + Ink(b)
  {
    if a == [] {
      assert a + b == b;
    } else {
      var head := if IsInk(a[0]) then [a[0]] else [];
      assert (a + b)[1..] == a[1..] + b && (a + b)[0] == a[0];
      InkAppend(a[1..], b);
      assert (head + Ink(a[1..])) + Ink(b) == head + (Ink(a[1..]) + Ink(b));
    }
  }

  lemma {:induction false} TrimBlanksInk(l: Bytes)
    ensures Ink(TrimBlanks(l)) == Ink(l)
  {
    if l != [] && IsBlank(l[|l| - 1]) {
      var front := l[..|l| - 1];
      TrimBlanksInk(front);
      InkAppend(front, [l[|l| - 1]]);
      assert l == front + [l[|l| - 1]];
    }
  }

  lemma JoinConsInk(l: Bytes, rest: seq<Bytes>)
    ensures Ink(Join([l] + rest)) == Ink(l) + Ink(Join(rest))
  {
    assert ([l] + rest)[1..] == rest;
    if rest == [] {
      assert Join([l] + rest) == l;
    } else {
      InkAppend(l + [NL], Join(rest));
      InkAppend(l, [NL]);
    }
  }

  lemma {:induction false} JoinedInk(rows: seq<Bytes>)
    ensures Ink(Join(Trimmed(rows))) == RowsInk(rows)
  {
    if rows != [] {
      JoinConsInk(TrimBlanks(rows[0]), Trimmed(rows[1..]));
      JoinedInk(rows[1..]);
      TrimBlanksInk(rows[0]);
    }
  }

  lemma {:induction false} NewlinesHaveNoInk(s: Bytes)
    requires forall i :: 0 <= i < |s| ==> s[i] == NL
    ensures Ink(s) == []
  {
    if s != [] {
      NewlinesHaveNoInk(s[1..]);
    }
  }

  lemma {:induction false} FoldInk(s: Bytes)
    ensures Ink(FoldBlankLines(s)) == Ink(s)
    decreases |s|
  {
    if s != [] {
      if s[0] != NL {
        FoldInk(s[1..]);
      } else {
        var n := LeadingNewlines(s);
        var run := if n >= 3 then [NL, NL] else s[..n];
        FoldInk(s[n..]);
        NewlinesHaveNoInk(run);
        NewlinesHaveNoInk(s[..n]);
        InkAppend(run, FoldBlankLines(s[n..]));
        InkAppend(s[..n], s[n..]);
        assert s == s[..n] + s[n..];
      }
    }
  }

  /** Cutting newlines off either end cuts no ink. */
  lemma CutInk(s: Bytes, k: nat)
    requires k <= |s|
    ensures (forall i :: 0 <= i < k ==> s[i] == NL) ==> Ink(s[k..]) == Ink(s)
    ensures (forall i :: k <= i < |s| ==> s[i] == NL) ==> Ink(s[..k]) == Ink(s)
  {
    assert s == s[..k] + s[k..];
    InkAppend(s[..k], s[k..]);
    if forall i :: 0 <= i < k ==> s[i] == NL {
      NewlinesHaveNoInk(s[..k]);
    }
    if forall i :: k <= i < |s| ==> s[i] == NL {
      NewlinesHaveNoInk(s[k..]);
    }
  }

  lemma TrimEdgesInk(s: Bytes)
    ensures Ink(TrimEdges(s)) == Ink(s)
  {
    CutInk(s, LeadingNewlines(s));
    var t := TrimLeft(s);
    TrimRightPrefix(t);
    CutInk(t, |TrimRight(t)|);
    assert TrimRight(t) == t[..|TrimRight(t)|];
  }

  lemma {:induction false} CleanTextInk(row: Bytes, s: Bytes)
    requires NoReturn(s) && NoNoise(s)
    ensures RowsInk(RowsFrom(row, s)) == Ink(row) + Ink(s)
    decreases |s|
  {
    if s == [] {
      assert [row][1..] == [];
    } else {
      var next := if s[0] == NL then [] else row + [s[0]];
      CleanTextInk(next, s[1..]);
      InkAppend(row, [s[0]]);
      InkAppend([s[0]], s[1..]);
      assert s == [s[0]] + s[1..];
      if s[0] == NL {
        assert ([row] + RowsFrom([], s[1..]))[1..] == RowsFrom([], s[1..]);
      } else {
        assert Ink(row) + Ink([s[0]]) + Ink(s[1..]) == Ink(row) + (Ink([s[0]]) + Ink(s[1..]));
      }
    }
  }

  /**
   Whatever goes in and whichever path is taken, the ink of the result is exactly the ink of
   the text's lines, where a return discards the line so far: nothing else visible is dropped.
   */
  lemma CompactKeepsTheInk(text: Bytes)
    ensures Ink(Compacted(text)) == RowsInk(Rows(text))
  {
    if LooksClean(text) {
      CleanTextInk([], text);
    } else {
      SlowPathKeepsTheInk(text);
    }
  }

  lemma SlowPathKeepsTheInk(text: Bytes)
    ensures Ink(SlowPath(text)) == RowsInk(Rows(text))
  {
    var joined := Join(Trimmed(Rows(text)));
    LinesAreTrimmedRows(text);
    JoinedInk(Rows(text));
    FoldInk(joined);
    TrimEdgesInk(FoldBlankLines(joined));
  }

  // ---------------------------------------------------------------- against a screen

  /** One row of a screen: its cells, and the column the next character goes to. */
  datatype Row = Row(cells: Bytes, col: nat)

  /** One character on a screen: a return only moves to column 0, anything else overwrites. */
  function Type(r: Row, c: byte): (n: Row)
    requires r.col <= |r.cells|
    ensures n.col <= |n.cells|
  {
    if c == CR then r.(col := 0)
    else Row(r.cells[..r.col] + [c] + (if r.col < |r.cells| then r.cells[r.col + 1..] else []), r.col + 1)
  }

  function Typed(line: Bytes): (r: Row)
    ensures r.col <= |r.cells|
  {
    if line == [] then Row([], 0) else Type(Typed(line[..|line| - 1]), line[|line| - 1])
  }

  /** What still stands to the right of everything typed after the last return. */
  function Overhang(line: Bytes): Bytes { Typed(line).cells[Typed(line).col..] }

  /** The longest stretch between two returns. */
  function Widest(line: Bytes): nat {
    if line == [] then 0
    else
      var w, n := Widest(line[..|line| - 1]), |AfterLastCR(line)|;
      if w < n then n else w
  }

  /** A row begins with what was typed after the last return, and is as wide as its longest stretch. */
  lemma {:induction false} RowHolds(line: Bytes)
    ensures Typed(line).col == |AfterLastCR(line)|
    ensures Typed(line).cells == AfterLastCR(line) + Overhang(line)
    ensures |Typed(line).cells| == Widest(line)
  {
    if line != [] {
      var front, c := line[..|line| - 1], line[|line| - 1];
      RowHolds(front);
      if c != CR {
        assert Typed(line).cells[..Typed(line).col] == AfterLastCR(front) + [c];
      }
      assert Typed(line).cells == Typed(line).cells[..Typed(line).col] + Overhang(line);
    }
  }

  /** Keeping only what follows the last return shows the row exactly when no earlier stretch was longer. */
  lemma RowIsKeptIff(line: Bytes)
    ensures Typed(line).cells == AfterLastCR(line) <==> Widest(line) == |AfterLastCR(line)|
  {
    RowHolds(line);
  }

  /** The rows a screen shows of a raw text, noise skipped. */
  function ScreenFrom(r: Row, s: Bytes): seq<Row>
    requires r.col <= |r.cells|
    decreases |s|
  {
    if s == [] then [r]
    else if IsNoise(s[0]) || (s[0] == CR && NewlineNext(s[1..])) then ScreenFrom(r, s[1..])
    else if s[0] == NL then [r] + ScreenFrom(Row([], 0), s[1..])
    else ScreenFrom(Type(r, s[0]), s[1..])
  }

  function Screen(text: Bytes): seq<Row> { ScreenFrom(Row([], 0), text) }

  function ScreenInk(rows: seq<Row>): Bytes {
    if rows == [] then [] else Ink(rows[0].cells) + ScreenInk(rows[1..])
  }

  /** A row of a screen begins with what is left of its line. */
  ghost predicate Begins(r: Row, row: Bytes) { r.col == |row| <= |r.cells| && r.cells[..r.col] == row }

  lemma {:induction false} ScreenBeginsWithRows(r: Row, row: Bytes, s: Bytes)
    requires Begins(r, row)
    ensures |ScreenFrom(r, s)| == |RowsFrom(row, s)|
    ensures forall i :: 0 <= i < |ScreenFrom(r, s)| ==> Begins(ScreenFrom(r, s)[i], RowsFrom(row, s)[i])
    decreases |s|
  {
    if s != [] {
      if IsNoise(s[0]) || (s[0] == CR && NewlineNext(s[1..])) {
        ScreenBeginsWithRows(r, row, s[1..]);
      } else if s[0] == NL {
        ScreenBeginsWithRows(Row([], 0), [], s[1..]);
      } else {
        var next := if s[0] == CR then [] else row + [s[0]];
        assert Begins(Type(r, s[0]), next);
        ScreenBeginsWithRows(Type(r, s[0]), next, s[1..]);
      }
    }
  }

  /** On no row something visible stands to the right of the cursor. */
  ghost predicate NothingHidden(screen: seq<Row>) {
    forall k :: 0 <= k < |screen| && screen[k].col <= |screen[k].cells| ==> Ink(screen[k].cells[screen[k].col..]) == []
  }

  lemma {:induction false} ScreenInkIff(screen: seq<Row>, rows: seq<Bytes>)
    requires |screen| == |rows| && forall i :: 0 <= i < |rows| ==> Begins(screen[i], rows[i])
    ensures ScreenInk(screen) == RowsInk(rows) <==> NothingHidden(screen)
    ensures |ScreenInk(screen)| >= |RowsInk(rows)|
  {
    if rows != [] {
      var r := screen[0];
      assert Begins(r, rows[0]);
      InkAppend(rows[0], r.cells[r.col..]);
      assert r.cells == rows[0] + r.cells[r.col..];
      assert forall i :: 0 <= i < |rows[1..]| ==> Begins(screen[1..][i], rows[1..][i]) by {
        forall i | 0 <= i < |rows[1..]| ensures Begins(screen[1..][i], rows[1..][i]) {
          assert Begins(screen[i + 1], rows[i + 1]);
        }
      }
      ScreenInkIff(screen[1..], rows[1..]);
      HiddenByRow(screen);
      HeadsAgreeIff(Ink(rows[0]), Ink(r.cells[r.col..]), ScreenInk(screen[1..]), RowsInk(rows[1..]));
    }
  }

  lemma HiddenByRow(screen: seq<Row>)
    requires screen != [] && screen[0].col <= |screen[0].cells|
    ensures NothingHidden(screen) <==> Ink(screen[0].cells[screen[0].col..]) == [] && NothingHidden(screen[1..])
  {
    var rest := screen[1..];
    if NothingHidden(screen) {
      forall k | 0 <= k < |rest| && rest[k].col <= |rest[k].cells| ensures Ink(rest[k].cells[rest[k].col..]) == [] {
        assert rest[k] == screen[k + 1];
      }
    }
    if Ink(screen[0].cells[screen[0].col..]) == [] && NothingHidden(rest) {
      forall k | 0 <= k < |screen| && screen[k].col <= |screen[k].cells| ensures Ink(screen[k].cells[screen[k].col..]) == [] {
        assert k == 0 || screen[k] == rest[k - 1];
      }
    }
  }

  lemma HeadsAgreeIff(a: Bytes, extra: Bytes, s: Bytes, l: Bytes)
    requires |s| >= |l|
    ensures (a + extra) + s == a + l <==> extra == [] && s == l
  {
    if (a + extra) + s == a + l {
      assert |extra| == 0;
      assert s == ((a + extra) + s)[|a|..] == (a + l)[|a|..] == l;
    }
  }

  /**
   The result shows what a screen would show, a return overwriting from column 0, if and only
   if on no row something visible stands to the right of the text after its last return.
   */
  lemma CompactShowsTheScreenIff(text: Bytes)
    ensures Ink(Compacted(text)) == ScreenInk(Screen(text)) <==> NothingHidden(Screen(text))
  {
    CompactKeepsTheInk(text);
    ScreenBeginsWithRows(Row([], 0), [], text);
    ScreenInkIff(Screen(text), Rows(text));
  }

  /** Such text is easily met: of "abcd\rX" a screen shows "Xbcd", and only "X" is kept. */
  lemma ShortOverwriteHidesText(tail: Bytes, c: byte)
    requires tail != [] && IsInk(c) && forall i :: 0 <= i < |tail| ==> IsInk(tail[i])
    ensures var line := [c] + tail + [CR] + [c];
            Typed(line).cells == [c] + tail && AfterLastCR(line) == [c] && Ink(Overhang(line)) != []
  {
    var first := [c] + tail;
    var line := first + [CR] + [c];
    TypedPlain(first);
    assert (first + [CR])[..|first|] == first;
    assert line[..|line| - 1] == first + [CR];
    assert Typed(first + [CR]) == Row(first, 0);
    assert Typed(line).cells == [] + [c] + first[1..];
    assert first[1..] == tail;
    assert AfterLastCR(first + [CR]) == [];
    assert Overhang(line) == tail && Ink(tail)[0] == tail[0];
  }

  lemma {:induction false} TypedPlain(line: Bytes)
    requires NoReturn(line)
    ensures Typed(line) == Row(line, |line|)
  {
    if line != [] {
      TypedPlain(line[..|line| - 1]);
    }
  }
}
