/**
 Stateless reads of one shell's output (internal/mcp/outputsource.go and the positional
 branch of handleReadOutput): the backward tail scan and paging by offset, over a live
 buffer or over the persisted log.
 */
module OutputSource {
  import opened Lines
  import opened OutputBuffer
  import BufferRuns

  type Stream = seq<byte>

  const FIRST_WINDOW: nat := 64 * 1024
  const TAIL_SCAN_CEILING: nat := 8 * 1024 * 1024
  const DEFAULT_TAIL_CAP: nat := 8192

  datatype Source = Live(buf: Buf) | Persisted(log: Stream) {
    function Len(): nat { if Live? then buf.Len() else |log| }

    function Read(start: int, max: int): RangeRead {
      if Live? then ByteRange(buf, start, max) else Bytes(BufferRuns.LogRange(log, start, max), |log|)
    }

    /** The source serves this stream: a live buffer retains some suffix of it. */
    ghost predicate Serves(stream: Stream) {
      match this
      case Live(b) => b.Len() == |stream| && b.master == stream[b.base..]
      case Persisted(l) => l == stream
    }

    /** How many bytes before the end can be read back. */
    function Retained(): nat { if Live? then |buf.master| else |log| }
  }

  function Min(a: int, b: int): int { if a < b then a else b }

  function Suffix(s: Stream, n: nat): Stream
    requires n <= |s|
  {
    s[|s| - n..]
  }

  // ---------------------------------------------------------------- the last n lines

  /** `len` bytes at the end of `s` start at a line start and hold min(n, all) lines. */
  ghost predicate IsLastLines(s: Stream, n: nat, len: nat) {
    && len <= |s|
    && (len == 0 || len == |s| || s[|s| - len - 1] == NL)
    && CountLines(Suffix(s, len)) == Min(n, CountLines(s))
  }

  /** Where the final line of a non-empty text starts. */
  function LastLineStart(s: Stream): (k: nat)
    requires s != []
    ensures k < |s| && (k == 0 || s[k - 1] == NL)
    ensures forall i :: k <= i < |s| - 1 ==> s[i] != NL
  {
    if |s| == 1 || s[|s| - 2] == NL then |s| - 1
    else
      var k := LastLineStart(s[..|s| - 1]);
      k
  }

  /** The length of the last `n` lines: the final line and the last n-1 of what precedes it. */
  function LastLen(s: Stream, n: nat): (len: nat)
    ensures len <= |s|
    decreases n
  {
    if n == 0 || s == [] then 0
    else
      var k := LastLineStart(s);
      |s| - k + LastLen(s[..k], n - 1)
  }

  /** Lines add up across a line start. */
  lemma CountConcat(a: Stream, b: Stream)
    requires a == [] || a[|a| - 1] == NL
    ensures CountLines(a + b) == CountLines(a) + CountLines(b)
  {
    NewlinesConcat(a, b);
    if b == [] {
      assert a + b == a;
    }
  }

  lemma CountAtLineStart(s: Stream, k: nat)
    requires k <= |s| && (k == 0 || s[k - 1] == NL)
    ensures CountLines(s) == CountLines(s[..k]) + CountLines(s[k..])
  {
    CountConcat(s[..k], s[k..]);
    assert s == s[..k] + s[k..];
  }

  lemma CountOfOneLine(s: Stream)
    requires s != [] && forall i :: 0 <= i < |s| - 1 ==> s[i] != NL
    ensures CountLines(s) == 1
  {
    var init := s[..|s| - 1];
    NewlinesZero(init);
    assert s == init + [s[|s| - 1]];
    NewlinesAppend(init, s[|s| - 1]);
  }

  lemma SuffixSplit(s: Stream, k: nat, w: nat)
    requires k <= |s| && |s| - k <= w <= |s|
    ensures Suffix(s, w) == Suffix(s[..k], w - (|s| - k)) + s[k..]
  {
  }

  /** A suffix that reaches past the final line, at `k`, holds one line more than what it reaches into. */
  lemma CountAcross(s: Stream, k: nat, w: nat)
    requires k < |s| && |s| - k <= w <= |s| && (k == 0 || s[k - 1] == NL)
    requires forall i :: k <= i < |s| - 1 ==> s[i] != NL
    ensures CountLines(Suffix(s, w)) == CountLines(Suffix(s[..k], w - (|s| - k))) + 1
  {
    SuffixSplit(s, k, w);
    CountOfOneLine(s[k..]);
    CountConcat(Suffix(s[..k], w - (|s| - k)), s[k..]);
  }

  lemma {:induction false} LastLenIsLastLines(s: Stream, n: nat)
    ensures IsLastLines(s, n, LastLen(s, n))
    decreases n
  {
    if n == 0 || s == [] {
      assert Suffix(s, 0) == [];
    } else {
      var k, len := LastLineStart(s), LastLen(s, n);
      LastLenIsLastLines(s[..k], n - 1);
      ExtendLastLines(s, k, n - 1, LastLen(s[..k], n - 1));
    }
  }

  lemma ExtendLastLines(s: Stream, k: nat, n: nat, len: nat)
    requires k < |s| && (k == 0 || s[k - 1] == NL)
    requires forall i :: k <= i < |s| - 1 ==> s[i] != NL
    requires IsLastLines(s[..k], n, len)
    ensures IsLastLines(s, n + 1, |s| - k + len)
  {
    var longer := |s| - k + len;
    CountAcross(s, k, longer);
    CountAcross(s, k, |s|);
    assert Suffix(s, |s|) == s && Suffix(s[..k], k) == s[..k];
    assert CountLines(s) == CountLines(s[..k]) + 1;
    assert longer < |s| ==> s[|s| - longer - 1] == s[..k][k - len - 1] == NL;
    assert CountLines(Suffix(s, longer)) == Min(n + 1, CountLines(s));
  }

  /** A longer suffix that starts a line holds strictly more lines, so the last n lines are unique. */
  lemma LastLinesAreUnique(s: Stream, n: nat, a: nat, b: nat)
    requires IsLastLines(s, n, a) && IsLastLines(s, n, b)
    ensures a == b
  {
    if a < b {
      LongerHoldsMore(s, a, b);
    } else if b < a {
      LongerHoldsMore(s, b, a);
    }
  }

  lemma NewlinesOrPartial(s: Stream)
    requires s != []
    ensures CountLines(s) >= 1
  {
    if s[|s| - 1] == NL {
      NewlinesPositive(s, |s| - 1);
    }
  }

  lemma LongerHoldsMore(s: Stream, a: nat, b: nat)
    requires a < b <= |s| && (a == 0 || s[|s| - a - 1] == NL)
    ensures CountLines(Suffix(s, a)) < CountLines(Suffix(s, b))
  {
    if a == 0 {
      assert Suffix(s, a) == [];
      NewlinesOrPartial(Suffix(s, b));
      return;
    }
    var u := Suffix(s, b);
    assert u[b - a..] == Suffix(s, a) && u[b - a - 1] == NL;
    CountAtLineStart(u, b - a);
    NewlinesPositive(u[..b - a], b - a - 1);
  }

  /** A window holds more than `n` lines, whole or not, exactly when it is longer than the last n lines. */
  lemma {:induction false} WindowHoldsMoreIff(s: Stream, n: nat, w: nat)
    requires w <= |s|
    ensures CountLines(Suffix(s, w)) > n <==> w > LastLen(s, n)
    decreases n
  {
    if n > 0 && w > 0 {
      var k := LastLineStart(s);
      var m := |s| - k;
      if w <= m {
        CountOfOneLine(Suffix(s, w));
      } else {
        WindowHoldsMoreIff(s[..k], n - 1, w - m);
        CountAcross(s, k, w);
      }
    }
  }

  /** A window longer than the last n lines has the same last n lines. */
  lemma LastLinesOfWindow(s: Stream, n: nat, w: nat)
    requires LastLen(s, n) < w <= |s|
    ensures LastLen(Suffix(s, w), n) == LastLen(s, n)
  {
    var u, len := Suffix(s, w), LastLen(s, n);
    LastLenIsLastLines(s, n);
    LastLenIsLastLines(u, n);
    WindowHoldsMoreIff(s, n, w);
    WindowHoldsMoreIff(s, n, |s|);
    assert Suffix(s, |s|) == s;
    SameInWindow(s, n, w, len);
    LastLinesAreUnique(u, n, len, LastLen(u, n));
  }

  lemma SameInWindow(s: Stream, n: nat, w: nat, len: nat)
    requires IsLastLines(s, n, len) && len < w <= |s|
    requires CountLines(s) > n && CountLines(Suffix(s, w)) > n
    ensures IsLastLines(Suffix(s, w), n, len)
  {
    assert Suffix(Suffix(s, w), len) == Suffix(s, len);
  }

  // ---------------------------------------------------------------- the loops

  /** Scans backwards for the newline before the last `n` lines. */
  method TakeLastLines(raw: Stream, n: int) returns (r: Stream)
    ensures r == Suffix(raw, LastLen(raw, Max(n, 0)))
  {
    if n <= 0 || raw == [] {
      return [];
    }
    var remaining := n;
    var end := |raw|;
    if raw[end - 1] == NL {
      end := end - 1;
    }
    assert raw[end..end] == [];
    var i := end;
    while i > 0
      invariant 0 <= i <= end
      invariant remaining > 0 && Newlines(raw[i..end]) == n - remaining
    {
      i := i - 1;
      assert raw[i..end] == [raw[i]] + raw[i + 1..end];
      NewlinesConcat([raw[i]], raw[i + 1..end]);
      NewlinesAppend([], raw[i]);
      if raw[i] == NL {
        remaining := remaining - 1;
        if remaining <= 0 {
          StopsBefore(raw, n, i + 1, end);
          return raw[i + 1..];
        }
      }
    }
    StopsBefore(raw, n, 0, end);
    r := raw;
  }

  /** Going back from the closing newline, the last n lines start after the n-th newline, or at 0. */
  lemma StopsBefore(raw: Stream, n: nat, k: nat, end: nat)
    requires raw != [] && end == (if raw[|raw| - 1] == NL then |raw| - 1 else |raw|)
    requires k <= end && k < |raw| && n > 0
    requires if k == 0 then Newlines(raw[k..end]) < n else raw[k - 1] == NL && Newlines(raw[k..end]) == n - 1
    ensures raw[k..] == Suffix(raw, LastLen(raw, n))
  {
    CountTo(raw, k, end);
    if k > 0 {
      CountAtLineStart(raw, k);
      NewlinesAreLines(raw, k);
    } else {
      assert raw[0..] == raw;
    }
    assert raw[k..] == Suffix(raw, |raw| - k);
    LastLenIsLastLines(raw, n);
    LastLinesAreUnique(raw, n, |raw| - k, LastLen(raw, n));
  }

  /** Lines are the newlines before the closing one, plus one. */
  lemma CountTo(raw: Stream, i: nat, end: nat)
    requires raw != [] && end == (if raw[|raw| - 1] == NL then |raw| - 1 else |raw|)
    requires i <= end && i < |raw|
    ensures CountLines(raw[i..]) == Newlines(raw[i..end]) + 1
  {
    var u := raw[i..];
    assert u[..end - i] == raw[i..end];
    NewlinesSplit(u, end - i);
    assert u[|u| - 1] == raw[|raw| - 1];
    if end < |raw| {
      assert u[end - i..] == [NL];
    } else {
      assert u[end - i..] == [];
    }
  }

  lemma NewlinesAreLines(raw: Stream, k: nat)
    requires 0 < k <= |raw| && raw[k - 1] == NL
    ensures CountLines(raw[..k]) >= 1
  {
    NewlinesPositive(raw[..k], k - 1);
  }

  /** The positional reader keeps at most `maxLines` newline-terminated lines. */
  method TruncateAtLines(raw: Stream, maxLines: int) returns (r: Stream)
    ensures r == raw[..DrainLength(raw, 0, maxLines)]
  {
    if maxLines <= 0 {
      return raw;
    }
    var seen := 0;
    for i := 0 to |raw|
      invariant DrainEnd(raw, |raw|, maxLines, 0, 0) == DrainEnd(raw, |raw|, maxLines, i, seen)
      invariant 0 <= seen < maxLines
    {
      if raw[i] == NL {
        seen := seen + 1;
        if seen == maxLines {
          return raw[..i + 1];
        }
      }
    }
    r := raw;
  }

  method IndexOfNewline(s: Stream) returns (idx: int)
    ensures idx == -1 <==> forall i :: 0 <= i < |s| ==> s[i] != NL
    ensures idx != -1 ==> 0 <= idx < |s| && s[idx] == NL && forall i :: 0 <= i < idx ==> s[i] != NL
  {
    for i := 0 to |s|
      invariant forall j :: 0 <= j < i ==> s[j] != NL
    {
      if s[i] == NL {
        return i;
      }
    }
    idx := -1;
  }

  // ---------------------------------------------------------------- the backward tail scan

  /** The first doubling of `w` that is longer than `need`, stopping at the ceiling. */
  function WindowFrom(w: nat, need: nat): (r: nat)
    requires w > 0
    ensures r <= TAIL_SCAN_CEILING
    ensures r > need || r == TAIL_SCAN_CEILING
    decreases TAIL_SCAN_CEILING - w
  {
    if w >= TAIL_SCAN_CEILING then TAIL_SCAN_CEILING
    else if need < w then w
    else WindowFrom(2 * w, need)
  }

  /** The window that is scanned for n > 0 lines: the first one longer than the last n-1. */
  function WindowFor(s: Stream, n: nat): (w: nat)
    requires n > 0
    ensures w <= TAIL_SCAN_CEILING
  {
    WindowFrom(FIRST_WINDOW, LastLen(s, n - 1))
  }

  /** Length after cutting to `max` bytes: past the first newline among them, if there is one. */
  ghost predicate IsByteCut(s: Stream, max: nat, len: nat) {
    if |s| <= max then len == |s|
    else
      var last := Suffix(s, max);
      if NL in last
      then len < max && last[max - len - 1] == NL && forall i :: 0 <= i < max - len - 1 ==> last[i] != NL
      else len == max
  }

  lemma ByteCutIsUnique(s: Stream, max: nat, a: nat, b: nat)
    requires IsByteCut(s, max, a) && IsByteCut(s, max, b)
    ensures a == b
  {
  }

  datatype Tail = Window(raw: Stream, start: nat, total: nat) | Slipped

  method CutBytes(raw: Stream, max: nat) returns (r: Stream, ghost len: nat)
    requires |raw| > max
    ensures len <= |raw| && r == Suffix(raw, len) && IsByteCut(raw, max, len)
  {
    var cut := |raw| - max;
    var idx := IndexOfNewline(raw[cut..]);
    if idx >= 0 {
      r := raw[cut + idx + 1..];
    } else {
      r := raw[cut..];
    }
    len := |r|;
    assert raw[cut..] == Suffix(raw, max);
  }

  /** The number of bytes read when no line count is asked for. */
  function TailCap(src: Source, maxBytes: int): (cap: nat)
    ensures cap <= src.Len()
  {
    var cap := if maxBytes > 0 then maxBytes else if src.Live? then DEFAULT_TAIL_CAP else src.Len();
    if cap > src.Len() then src.Len() else cap
  }

  /** What the scan keeps before any byte limit: the last n lines, or the whole window when that is shorter. */
  function KeptLines(s: Stream, n: nat): (len: nat)
    requires n > 0
    ensures len <= |s|
  {
    var lines, window := LastLen(s, n), WindowFor(s, n);
    if lines <= window then lines else window
  }

  /** How many bytes before the end a tail read has to look at. */
  function TailRead(src: Source, s: Stream, tailLines: int, maxBytes: int): nat {
    if s == [] then 0
    else if tailLines <= 0 then TailCap(src, maxBytes)
    else Min(WindowFor(s, tailLines), |s|)
  }

  /** The length a tail read returns. */
  ghost predicate IsTail(src: Source, s: Stream, tailLines: int, maxBytes: int, len: nat) {
    if tailLines <= 0 then IsByteCut(s, TailCap(src, maxBytes), len)
    else if maxBytes > 0 then IsByteCut(Suffix(s, KeptLines(s, tailLines)), maxBytes, len)
    else len == KeptLines(s, tailLines)
  }

  lemma ReadOfTail(src: Source, stream: Stream, start: nat, max: nat)
    requires src.Serves(stream) && start <= |stream| && max > 0 && start + max >= |stream|
    requires start == 0 || start + max == |stream|
    ensures |stream| - start <= src.Retained() ==> src.Read(start, max) == Bytes(stream[start..], |stream|)
    ensures stream != [] && |stream| - start > src.Retained() ==> src.Read(start, max).Overrun?
  {
    if src.Live? {
      var b := src.buf;
      BufferRuns.LiveReadOfTail(b, stream, start, max);
      if |stream| - start <= |b.master| {
        assert b.base <= start && Max(start, b.base) == start;
        assert BufferRuns.RangeIsServable(b.base, b.Len(), start, max);
        assert start == 0 ==> b.base == 0;
        RestOfLog(stream, start, max);
      } else {
        assert Max(Max(start, 0) - b.base, 0) == 0;
      }
    } else {
      RestOfLog(stream, start, max);
    }
  }

  lemma RestOfLog(log: Stream, start: nat, max: nat)
    requires start <= |log| && max > 0 && start + max >= |log|
    ensures BufferRuns.LogRange(log, start, max) == log[start..]
  {
    assert start + max == |log| ==> log[start..start + max] == log[start..];
  }

  /** What one turn of the loop of windows learns. */
  lemma OneWindow(s: Stream, n: nat, window: nat)
    requires n > 0 && 0 < window <= TAIL_SCAN_CEILING
    ensures var w, need := Min(window, |s|), LastLen(s, n - 1);
            if CountLines(Suffix(s, w)) >= n || window >= |s| || window >= TAIL_SCAN_CEILING
            then Min(WindowFrom(window, need), |s|) == w
            else WindowFrom(window, need) == WindowFrom(2 * window, need)
  {
    WindowHoldsMoreIff(s, n - 1, Min(window, |s|));
    WindowGrows(window, LastLen(s, n - 1));
  }

  lemma {:induction false} WindowGrows(w: nat, need: nat)
    requires 0 < w
    ensures WindowFrom(w, need) >= Min(w, TAIL_SCAN_CEILING)
    decreases TAIL_SCAN_CEILING - w
  {
    if w < TAIL_SCAN_CEILING {
      WindowGrows(2 * w, need);
    }
  }

  /** Reads the last `window` bytes, or everything. */
  method ReadWindow(src: Source, window: nat, ghost stream: Stream) returns (raw: Stream, start: nat, ok: bool)
    requires src.Serves(stream) && window > 0 && stream != []
    ensures start == |stream| - Min(window, |stream|)
    ensures ok <==> Min(window, |stream|) <= src.Retained()
    ensures ok ==> raw == Suffix(stream, Min(window, |stream|))
  {
    var total := src.Len();
    start := if total - window < 0 then 0 else total - window;
    ReadOfTail(src, stream, start, window);
    var read := src.Read(start, window);
    ok := read.Bytes?;
    raw := if ok then read.data else [];
  }

  /** The loop of windows: 64 KiB, doubling until enough lines, the stream start or the ceiling. */
  method FindWindow(src: Source, n: nat, ghost stream: Stream) returns (raw: Stream, ok: bool)
    requires src.Serves(stream) && n > 0 && stream != []
    ensures ok ==> raw == Suffix(stream, Min(WindowFor(stream, n), |stream|))
    ensures ok <==> Min(WindowFor(stream, n), |stream|) <= src.Retained()
  {
    var window := FIRST_WINDOW;
    ghost var need := LastLen(stream, n - 1);
    while true
      invariant 0 < window < 2 * TAIL_SCAN_CEILING
      invariant WindowFor(stream, n) == WindowFrom(window, need)
      decreases 2 * TAIL_SCAN_CEILING - window
    {
      if window > TAIL_SCAN_CEILING {
        window := TAIL_SCAN_CEILING;
      }
      OneWindow(stream, n, window);
      WindowGrows(window, need);
      var start;
      raw, start, ok := ReadWindow(src, window, stream);
      if !ok || CountLines(raw) >= n || start == 0 || window >= TAIL_SCAN_CEILING {
        return;
      }
      window := window * 2;
    }
  }

  /** No line count: the last `cap` bytes, from the first line start among them. */
  method TailByBytes(src: Source, maxBytes: int, ghost stream: Stream) returns (r: Tail, ghost len: nat)
    requires src.Serves(stream) && stream != []
    ensures r.Slipped? <==> TailCap(src, maxBytes) > src.Retained()
    ensures r.Window? ==>
              && len <= |stream| && r == Window(Suffix(stream, len), |stream| - len, |stream|)
              && IsByteCut(stream, TailCap(src, maxBytes), len)
  {
    var cap := TailCap(src, maxBytes);
    var raw, start, ok := ReadWindow(src, cap, stream);
    if !ok {
      return Slipped, 0;
    }
    len := cap;
    if start > 0 {
      var skipped;
      raw, skipped, len := DropPartialLine(raw, stream);
      start := start + skipped;
    }
    r := Window(raw, start, src.Len());
  }

  /** Cuts the end of a stream at its first line start, when it has one. */
  method DropPartialLine(raw: Stream, ghost stream: Stream) returns (r: Stream, skipped: nat, ghost len: nat)
    requires |raw| < |stream| && raw == Suffix(stream, |raw|)
    ensures len <= |stream| && r == Suffix(stream, len) && IsByteCut(stream, |raw|, len)
    ensures skipped + len == |raw|
  {
    var idx := IndexOfNewline(raw);
    AlignedToLine(stream, |raw|, idx);
    r, skipped := raw, 0;
    if idx >= 0 {
      r, skipped := raw[idx + 1..], idx + 1;
    }
    len := |r|;
  }

  lemma AlignedToLine(s: Stream, cap: nat, idx: int)
    requires cap < |s| && -1 <= idx < cap
    requires forall i :: 0 <= i < (if idx == -1 then cap else idx) ==> Suffix(s, cap)[i] != NL
    requires idx >= 0 ==> Suffix(s, cap)[idx] == NL
    ensures if idx == -1 then IsByteCut(s, cap, cap)
            else IsByteCut(s, cap, cap - idx - 1) && Suffix(s, cap)[idx + 1..] == Suffix(s, cap - idx - 1)
  {
  }

  method TailByLines(src: Source, n: nat, ghost stream: Stream) returns (raw: Stream, ok: bool)
    requires src.Serves(stream) && stream != [] && n > 0
    ensures ok <==> Min(WindowFor(stream, n), |stream|) <= src.Retained()
    ensures ok ==> raw == Suffix(stream, KeptLines(stream, n))
  {
    raw, ok := FindWindow(src, n, stream);
    if ok {
      KeptOfWindow(stream, n);
      if CountLines(raw) > n {
        raw := TakeLastLines(raw, n);
      }
    }
  }

  /** What is kept of the last window: its last n lines when it holds more, and else all of it. */
  lemma KeptOfWindow(s: Stream, n: nat)
    requires n > 0
    ensures var w := Min(WindowFor(s, n), |s|);
            var raw := Suffix(s, w);
            Suffix(s, KeptLines(s, n)) == if CountLines(raw) > n then Suffix(raw, LastLen(raw, n)) else raw
  {
    var w := Min(WindowFor(s, n), |s|);
    WindowHoldsMoreIff(s, n, w);
    if CountLines(Suffix(s, w)) > n {
      LastLinesOfWindow(s, n, w);
      SuffixOfSuffix(s, w, LastLen(s, n));
    }
  }

  lemma SuffixOfSuffix(s: Stream, a: nat, b: nat)
    requires b <= a <= |s|
    ensures Suffix(Suffix(s, a), b) == Suffix(s, b)
  {
  }

  /** Keeps at most `maxBytes` bytes when that is set. */
  method LimitBytes(raw: Stream, maxBytes: int) returns (r: Stream, ghost len: nat)
    ensures len <= |raw| && r == Suffix(raw, len)
    ensures if maxBytes > 0 then IsByteCut(raw, maxBytes, len) else len == |raw|
  {
    if maxBytes > 0 && |raw| > maxBytes {
      r, len := CutBytes(raw, maxBytes);
    } else {
      r, len := raw, |raw|;
    }
  }

  method TailByLinesAndBytes(src: Source, n: nat, maxBytes: int, ghost stream: Stream) returns (r: Tail, ghost len: nat)
    requires src.Serves(stream) && stream != [] && n > 0
    ensures r.Slipped? <==> Min(WindowFor(stream, n), |stream|) > src.Retained()
    ensures r.Window? ==>
              && len <= |stream| && r == Window(Suffix(stream, len), |stream| - len, |stream|)
              && IsTail(src, stream, n, maxBytes, len)
  {
    var raw, ok := TailByLines(src, n, stream);
    if !ok {
      return Slipped, 0;
    }
    ghost var kept := raw;
    raw, len := LimitBytes(raw, maxBytes);
    SuffixOfSuffix(stream, |kept|, len);
    r := Window(raw, src.Len() - |raw|, src.Len());
  }

  /**
   The whole tail read. It fails exactly when it has to read more than the source retains;
   otherwise the result ends at the end of the stream, `start` is its true offset, and its
   length is fixed by the limits alone.
   */
  method ScanTailWindow(src: Source, tailLines: int, maxBytes: int, ghost stream: Stream)
    returns (r: Tail, ghost len: nat)
    requires src.Serves(stream)
    ensures r.Slipped? <==> TailRead(src, stream, tailLines, maxBytes) > src.Retained()
    ensures r.Window? ==>
              && len <= |stream| && r == Window(Suffix(stream, len), |stream| - len, |stream|)
              && IsTail(src, stream, tailLines, maxBytes, len)
  {
    if src.Len() == 0 {
      EmptyTail(src, stream, tailLines, maxBytes);
      return Window([], 0, 0), 0;
    }
    assert stream != [];
    if tailLines <= 0 {
      r, len := TailByBytes(src, maxBytes, stream);
    } else {
      r, len := TailByLinesAndBytes(src, tailLines, maxBytes, stream);
    }
  }

  lemma EmptyTail(src: Source, stream: Stream, tailLines: int, maxBytes: int)
    requires src.Serves(stream) && src.Len() == 0
    ensures stream == [] && TailRead(src, stream, tailLines, maxBytes) == 0
    ensures Suffix(stream, 0) == [] && IsTail(src, stream, tailLines, maxBytes, 0)
  {
  }

  // ---------------------------------------------------------------- what a tail read promises

  lemma {:induction false} NoNewlineIsOneLine(s: Stream)
    requires s != [] && forall i :: 0 <= i < |s| ==> s[i] != NL
    ensures LastLineStart(s) == 0
  {
    if |s| > 1 {
      NoNewlineIsOneLine(s[..|s| - 1]);
    }
  }

  /** Whatever the stream, a tail read keeps to its line limit and to its byte limit. */
  lemma TailWithinLimits(src: Source, s: Stream, tailLines: int, maxBytes: int, len: nat)
    requires src.Serves(s) && len <= |s| && IsTail(src, s, tailLines, maxBytes, len)
    ensures tailLines > 0 ==> CountLines(Suffix(s, len)) <= tailLines
    ensures maxBytes > 0 ==> len <= maxBytes
  {
    if tailLines > 0 {
      assert len <= KeptLines(s, tailLines) <= LastLen(s, tailLines);
      WindowHoldsMoreIff(s, tailLines, len);
    }
  }

  /** The least of the stream and the limit that applies: the caller's, 8 KiB on a live shell, none on a log. */
  ghost predicate IsCap(src: Source, maxBytes: int, cap: nat) {
    && cap <= src.Len()
    && (maxBytes > 0 ==> cap <= maxBytes && (cap == maxBytes || cap == src.Len()))
    && (maxBytes <= 0 && src.Live? ==> cap <= 8192 && (cap == 8192 || cap == src.Len()))
    && (maxBytes <= 0 && src.Persisted? ==> cap == src.Len())
  }

  /**
   Without a line count the tail is as long as the limit that applies allows: the whole stream
   when it fits, and otherwise all of the last bytes but the beginning of a cut line.
   */
  lemma TailFillsItsLimit(src: Source, s: Stream, maxBytes: int, cap: nat, len: nat)
    requires src.Serves(s) && IsCap(src, maxBytes, cap) && len <= |s| && IsTail(src, s, 0, maxBytes, len)
    ensures cap == |s| ==> len == |s|
    ensures NL !in Suffix(s, cap) ==> len == cap
    ensures cap < |s| && NL in Suffix(s, cap) ==>
              len < cap && s[|s| - len - 1] == NL && NL !in s[|s| - cap..|s| - len - 1]
  {
    assert cap == TailCap(src, maxBytes);
    if cap < |s| && NL in Suffix(s, cap) {
      var last := Suffix(s, cap);
      assert last[cap - len - 1] == s[|s| - len - 1];
      forall i | |s| - cap <= i < |s| - len - 1 ensures s[i] != NL {
        assert last[i - (|s| - cap)] == s[i];
      }
    }
  }

  /** Those limits leave no freedom. */
  lemma TailIsUnique(src: Source, s: Stream, tailLines: int, maxBytes: int, a: nat, b: nat)
    requires IsTail(src, s, tailLines, maxBytes, a) && IsTail(src, s, tailLines, maxBytes, b)
    ensures a == b
  {
    if tailLines <= 0 {
      ByteCutIsUnique(s, TailCap(src, maxBytes), a, b);
    } else if maxBytes > 0 {
      ByteCutIsUnique(Suffix(s, KeptLines(s, tailLines)), maxBytes, a, b);
    }
  }

  /**
   Before any byte cut the scan returns the last n lines if and only if the window it ended
   with held more than n lines, or was the whole stream, or held n and began at a line start.
   */
  lemma ScanReturnsLastLinesIff(s: Stream, n: nat)
    requires n > 0
    ensures var w := Min(WindowFor(s, n), |s|);
            IsLastLines(s, n, KeptLines(s, n)) <==>
            || CountLines(Suffix(s, w)) > n
            || w == |s|
            || (CountLines(Suffix(s, w)) == n && s[|s| - w - 1] == NL)
  {
    var w := Min(WindowFor(s, n), |s|);
    LastLenIsLastLines(s, n);
    WindowHoldsMoreIff(s, n, w);
    if w < LastLen(s, n) {
      ShortWindow(s, n, w);
    } else if w == LastLen(s, n) < |s| {
      WholeWindow(s, n);
    }
  }

  lemma ShortWindow(s: Stream, n: nat, w: nat)
    requires 0 < w < LastLen(s, n)
    ensures !IsLastLines(s, n, w)
    ensures s[|s| - w - 1] == NL ==> CountLines(Suffix(s, w)) < n
  {
    LastLenIsLastLines(s, n);
    if s[|s| - w - 1] == NL {
      LongerHoldsMore(s, w, LastLen(s, n));
    }
    if IsLastLines(s, n, w) {
      LastLinesAreUnique(s, n, w, LastLen(s, n));
    }
  }

  lemma WholeWindow(s: Stream, n: nat)
    requires 0 < LastLen(s, n) < |s|
    ensures CountLines(Suffix(s, LastLen(s, n))) == n && s[|s| - LastLen(s, n) - 1] == NL
  {
    LastLenIsLastLines(s, n);
    WindowHoldsMoreIff(s, n, |s|);
    assert Suffix(s, |s|) == s;
  }

  /** The last n lines are always found when they fit the first window. */
  lemma ShortTailsAreExact(s: Stream, n: nat)
    requires n > 0 && LastLen(s, n) <= 65536
    ensures KeptLines(s, n) == LastLen(s, n)
  {
    WindowGrows(FIRST_WINDOW, LastLen(s, n - 1));
  }

  /** They are not always found: of one long line only the first window is returned. */
  lemma LongLineIsCut(s: Stream)
    requires |s| > 65536 && forall i :: 0 <= i < |s| ==> s[i] != NL
    ensures LastLen(s, 1) == |s| && KeptLines(s, 1) == 65536
  {
    NoNewlineIsOneLine(s);
  }

  /** A window is 64 KiB, doubled up to seven times, and no longer than it has to be. */
  lemma WindowSizes(s: Stream, n: nat)
    requires n > 0
    ensures var w, need := WindowFor(s, n), LastLen(s, n - 1);
            && w in {65536, 131072, 262144, 524288, 1048576, 2097152, 4194304, 8388608}
            && (w > need || w == 8388608)
            && (w == 65536 || w / 2 <= need)
  {
    var need := LastLen(s, n - 1);
    assert WindowFrom(2097152, need) == (if need < 2097152 then 2097152 else if need < 4194304 then 4194304 else 8388608);
    assert WindowFrom(262144, need) ==
           (if need < 262144 then 262144 else if need < 524288 then 524288 else if need < 1048576 then 1048576 else WindowFrom(2097152, need));
  }

  // ---------------------------------------------------------------- paging

  datatype Page = Page(raw: Stream, end: nat, total: nat, hasMore: bool) | PageSlipped

  /** The page of the log at `offset`: what a reader standing there would be handed. */
  function LogPage(log: Stream, offset: nat, maxBytes: int, maxLines: int): Page {
    var unread := if offset < |log| then log[offset..] else [];
    var n := DrainLength(unread, maxBytes, maxLines);
    Page(unread[..n], offset + n, |log|, offset + n < |log|)
  }

  function PageMax(total: nat, offset: nat, maxBytes: int): int {
    if maxBytes > 0 then maxBytes else Max(total - offset, 0)
  }

  function Base(src: Source): nat { if src.Live? then src.buf.base else 0 }

  /** Limiting by bytes first and by lines second is one read with both limits. */
  lemma LimitsCompose(unread: Stream, max: int, maxLines: int)
    requires max > 0
    ensures var n := if max < |unread| then max else |unread|;
            DrainLength(unread[..n], 0, maxLines) == DrainLength(unread, max, maxLines)
  {
    var n := if max < |unread| then max else |unread|;
    if maxLines > 0 {
      DrainEndPrefix(unread, n, maxLines, 0, 0);
    }
  }

  lemma {:induction false} DrainEndPrefix(unread: Stream, limit: nat, maxLines: int, i: nat, lines: nat)
    requires i <= limit <= |unread|
    ensures DrainEnd(unread[..limit], limit, maxLines, i, lines) == DrainEnd(unread, limit, maxLines, i, lines)
    decreases limit - i
  {
    if i < limit && !(unread[i] == NL && lines + 1 >= maxLines) {
      DrainEndPrefix(unread, limit, maxLines, i + 1, lines + if unread[i] == NL then 1 else 0);
    }
  }

  /** The bytes of a page: a range of the stream, cut after its last permitted line. */
  function PageBytes(stream: Stream, at: nat, max: int, maxLines: int): Stream {
    var raw := BufferRuns.LogRange(stream, at, max);
    raw[..DrainLength(raw, 0, maxLines)]
  }

  /**
   What a positional read returns: `total` is the length the call saw first, `base` and `stream`
   are what the source held when the range was read. A start that is no longer retained is
   served from the oldest retained byte, but still numbered from `offset`.
   */
  function PageAt(total: nat, base: nat, stream: Stream, offset: nat, maxBytes: int, maxLines: int): Page {
    var max := PageMax(total, offset, maxBytes);
    if !BufferRuns.RangeIsServable(base, |stream|, offset, max) then PageSlipped
    else
      var raw := PageBytes(stream, Max(offset, base), max, maxLines);
      Page(raw, offset + |raw|, total, offset + |raw| < total)
  }

  /**
   One positional read: the length and the range are two lock holds, so the source may have
   moved in between. It fails exactly when the live buffer cannot serve the range; on a
   source that stood still, from a retained offset, it is the log's own page.
   */
  method ReadPage(first: Source, src: Source, offset: nat, maxBytes: int, maxLines: int,
                  ghost earlier: Stream, ghost stream: Stream) returns (p: Page)
    requires first.Serves(earlier) && src.Serves(stream)
    ensures p == PageAt(|earlier|, Base(src), stream, offset, maxBytes, maxLines)
    ensures p.PageSlipped? <==>
              !BufferRuns.RangeIsServable(Base(src), |stream|, offset, PageMax(|earlier|, offset, maxBytes))
    ensures p.Page? && earlier == stream && offset >= Base(src) ==> p == LogPage(stream, offset, maxBytes, maxLines)
  {
    var total := first.Len();
    var max := maxBytes;
    if max <= 0 {
      max := total - offset;
      if max < 0 {
        max := 0;
      }
    }
    assert max == PageMax(|earlier|, offset, maxBytes);
    RangeOfSource(src, stream, offset, max);
    StillPageIsLogPage(stream, Base(src), offset, maxBytes, maxLines);
    var read := src.Read(offset, max);
    if read.Overrun? {
      return PageSlipped;
    }
    var raw := TruncateAtLines(read.data, maxLines);
    assert raw == PageBytes(stream, Max(offset, Base(src)), max, maxLines);
    p := Page(raw, offset + |raw|, total, offset + |raw| < total);
  }

  lemma StillPageIsLogPage(stream: Stream, base: nat, offset: nat, maxBytes: int, maxLines: int)
    ensures var p := PageAt(|stream|, base, stream, offset, maxBytes, maxLines);
            p.Page? && offset >= base ==> p == LogPage(stream, offset, maxBytes, maxLines)
  {
    PageIsLogPage(stream, offset, maxBytes, maxLines);
  }

  lemma RangeOfSource(src: Source, stream: Stream, offset: nat, max: int)
    requires src.Serves(stream)
    ensures if BufferRuns.RangeIsServable(Base(src), |stream|, offset, max)
            then src.Read(offset, max) == Bytes(BufferRuns.LogRange(stream, Max(offset, Base(src)), max), |stream|)
            else src.Read(offset, max).Overrun?
  {
    if src.Live? {
      BufferRuns.LiveReadOfTail(src.buf, stream, offset, max);
    }
  }

  /** A page of a stream that stood still is what a reader at that offset would be handed. */
  lemma PageIsLogPage(log: Stream, at: nat, maxBytes: int, maxLines: int)
    ensures PageBytes(log, at, PageMax(|log|, at, maxBytes), maxLines) == LogPage(log, at, maxBytes, maxLines).raw
  {
    var max := PageMax(|log|, at, maxBytes);
    if at < |log| {
      var unread := log[at..];
      var n := if max < |unread| then max else |unread|;
      assert BufferRuns.LogRange(log, at, max) == unread[..n];
      LimitsCompose(unread, max, maxLines);
      assert DrainLength(unread, max, maxLines) == DrainLength(unread, maxBytes, maxLines);
    }
  }

  /** A page at a reader's cursor is what that reader's next read returns, after any history. */
  lemma PageIsTheReadersNextRead(t: nat, a: nat, ops: seq<Op>, id: int, maxBytes: int, maxLines: int)
    requires id in BufferRuns.Run(t, a, ops).buf.readers
    ensures var h := BufferRuns.Run(t, a, ops);
            var page := LogPage(h.stream, h.buf.Cursor(id), maxBytes, maxLines);
            var (b, reply) := Step(h.buf, Read(id, maxBytes, maxLines));
            && b.Cursor(id) == page.end
            && page.raw == if reply.Data? then reply.bytes else []
  {
    BufferRuns.RunKeepsInv(t, a, ops);
    var h := BufferRuns.Run(t, a, ops);
    if h.buf.readers[id] < |h.buf.master| {
      assert h.buf.master[h.buf.readers[id]..] == h.stream[h.buf.Cursor(id)..];
    }
  }

  // ---------------------------------------------------------------- paging a live shell

  /**
   A client's next request. The buffer goes through any operations before the call and between
   its two lock holds: writes, other readers, compactions, the close.
   */
  datatype Ask = Ask(before: seq<Op>, between: seq<Op>, maxBytes: int, maxLines: int)

  /**
   The shell's buffer, the bytes the client has collected, the stream position each of them
   came from, and the offset the client will ask for next.
   */
  datatype Client = Client(h: BufferRuns.History, got: Stream, at: seq<nat>, offset: nat, failed: bool)

  function Positions(start: nat, n: nat): seq<nat> { seq(n, i requires 0 <= i < n => start + i) }

  ghost function AtLength(c: Client, a: Ask): BufferRuns.History { BufferRuns.RecordAll(c.h, a.before) }

  ghost function AtRange(c: Client, a: Ask): BufferRuns.History { BufferRuns.RecordAll(AtLength(c, a), a.between) }

  ghost function PageFor(c: Client, a: Ask): Page {
    PageAt(|AtLength(c, a).stream|, AtRange(c, a).buf.base, AtRange(c, a).stream, c.offset, a.maxBytes, a.maxLines)
  }

  ghost function AskPage(c: Client, a: Ask): Client {
    var h, page := AtRange(c, a), PageFor(c, a);
    if c.failed || page.PageSlipped? then c.(h := h, failed := true)
    else Client(h, c.got + page.raw, c.at + Positions(Max(c.offset, h.buf.base), |page.raw|), page.end, false)
  }

  ghost function AskAll(c: Client, asks: seq<Ask>): Client
    decreases |asks|
  {
    if asks == [] then c else AskAll(AskPage(c, asks[0]), asks[1..])
  }

  /** The client holds the stream from `from` to its offset: every byte once, in order. */
  ghost predicate Collected(c: Client, from: nat) {
    && BufferRuns.CacheIsTail(c.h) && !c.failed
    && from <= c.offset <= |c.h.stream|
    && c.at == Positions(from, c.offset - from)
    && c.got == c.h.stream[from..c.offset]
  }

  /** A request that is answered truly, in numbers the shell reports: nothing asked, or a retained and servable range. */
  predicate IsTrueAsk(base: nat, length: nat, offset: nat, max: int) {
    max <= 0 || (offset >= base && BufferRuns.RangeIsServable(base, length, offset, max))
  }

  ghost predicate TrueAsk(c: Client, a: Ask) {
    IsTrueAsk(AtRange(c, a).buf.base, |AtRange(c, a).stream|, c.offset,
              PageMax(|AtLength(c, a).stream|, c.offset, a.maxBytes))
  }

  ghost predicate AllTrue(c: Client, asks: seq<Ask>)
    decreases |asks|
  {
    asks == [] || (TrueAsk(c, asks[0]) && AllTrue(AskPage(c, asks[0]), asks[1..]))
  }

  /** The call failed, or some byte is not the one that belongs at its place. */
  ghost predicate OffTrack(c: Client, from: nat) {
    c.failed || exists i :: 0 <= i < |c.at| && c.at[i] != from + i
  }

  lemma PageBytesHold(stream: Stream, at: nat, max: int, maxLines: int)
    ensures var raw := PageBytes(stream, at, max, maxLines);
            && (max <= 0 || at >= |stream| ==> raw == [])
            && (max > 0 && at < |stream| ==> 0 < |raw| <= |stream| - at && raw == stream[at..at + |raw|])
            && (max > 0 ==> |raw| <= max)
  {
    DrainMeetsLimits(BufferRuns.LogRange(stream, at, max), 0, maxLines);
  }

  lemma HistoryMoves(c: Client, a: Ask)
    requires BufferRuns.CacheIsTail(c.h)
    ensures BufferRuns.CacheIsTail(AtRange(c, a))
    ensures c.h.stream <= AtLength(c, a).stream <= AtRange(c, a).stream
  {
    BufferRuns.RecordAllKeepsCache(c.h, a.before);
    BufferRuns.RecordAllKeepsCache(AtLength(c, a), a.between);
  }

  lemma ExtendCopy(older: Stream, stream: Stream, from: nat, offset: nat, raw: Stream)
    requires from <= offset <= |older| && older <= stream
    requires offset + |raw| <= |stream| && raw == stream[offset..offset + |raw|]
    ensures older[from..offset] + raw == stream[from..offset + |raw|]
    ensures Positions(from, offset - from) + Positions(offset, |raw|) == Positions(from, offset + |raw| - from)
  {
    assert older[from..offset] == stream[from..offset];
  }

  /** What a true request is answered with: the next bytes, and some whenever any are left. */
  lemma TrueAnswer(total: nat, base: nat, stream: Stream, offset: nat, maxBytes: int, maxLines: int)
    requires IsTrueAsk(base, |stream|, offset, PageMax(total, offset, maxBytes)) && offset <= |stream| && total <= |stream|
    ensures var p := PageAt(total, base, stream, offset, maxBytes, maxLines);
            && p.Page? && p.end == offset + |p.raw| <= |stream|
            && p.raw == stream[offset..p.end]
            && (p.hasMore <==> p.end < total)
            && (offset < total ==> p.raw != [])
            && (p.raw != [] ==> offset >= base)
  {
    PageBytesHold(stream, Max(offset, base), PageMax(total, offset, maxBytes), maxLines);
  }

  /** A true answer extends what was collected, and moves on whenever bytes are left. */
  lemma TrueAskKeepsCollected(c: Client, a: Ask, from: nat)
    requires Collected(c, from) && TrueAsk(c, a)
    ensures Collected(AskPage(c, a), from)
    ensures PageFor(c, a).Page? && (PageFor(c, a).hasMore <==> AskPage(c, a).offset < |AtLength(c, a).stream|)
    ensures c.offset < |AtLength(c, a).stream| ==> c.offset < AskPage(c, a).offset
  {
    HistoryMoves(c, a);
    var h, raw := AtRange(c, a), PageFor(c, a).raw;
    TrueAnswer(|AtLength(c, a).stream|, h.buf.base, h.stream, c.offset, a.maxBytes, a.maxLines);
    assert Positions(Max(c.offset, h.buf.base), |raw|) == Positions(c.offset, |raw|);
    StillCollected(c, h, raw, from);
  }

  lemma StillCollected(c: Client, h: BufferRuns.History, raw: Stream, from: nat)
    requires Collected(c, from) && BufferRuns.CacheIsTail(h) && c.h.stream <= h.stream
    requires c.offset + |raw| <= |h.stream| && raw == h.stream[c.offset..c.offset + |raw|]
    ensures Collected(Client(h, c.got + raw, c.at + Positions(c.offset, |raw|), c.offset + |raw|, false), from)
  {
    ExtendCopy(c.h.stream, h.stream, from, c.offset, raw);
  }

  /** Any other answer fails, or hands out bytes from another place than the offset says. */
  lemma OtherAskGoesOffTrack(c: Client, a: Ask, from: nat)
    requires Collected(c, from) && !TrueAsk(c, a)
    ensures OffTrack(AskPage(c, a), from)
  {
    HistoryMoves(c, a);
    var h, n := AtRange(c, a), AskPage(c, a);
    var max := PageMax(|AtLength(c, a).stream|, c.offset, a.maxBytes);
    if PageFor(c, a).Page? {
      PageBytesHold(h.stream, h.buf.base, max, a.maxLines);
      assert n.at[|c.at|] == h.buf.base != from + |c.at|;
    }
  }

  lemma OffTrackIsNotCollected(c: Client, from: nat)
    requires OffTrack(c, from)
    ensures !Collected(c, from)
  {
  }

  lemma {:induction false} OffTrackStays(c: Client, asks: seq<Ask>, from: nat)
    requires OffTrack(c, from)
    ensures OffTrack(AskAll(c, asks), from)
    decreases |asks|
  {
    if asks != [] {
      var n := AskPage(c, asks[0]);
      if !n.failed {
        var i :| 0 <= i < |c.at| && c.at[i] != from + i;
        assert n.at[i] != from + i;
      }
      OffTrackStays(n, asks[1..], from);
    }
  }

  /**
   Asking a live shell again and again at the previous end, with any limits and while anything
   happens to its buffer, collects exactly the stream from the first offset on, no gap and no
   repeat, if and only if every single request is a true one when it is served.
   */
  lemma {:induction false} PagesConcatenateIff(c: Client, asks: seq<Ask>, from: nat)
    requires Collected(c, from)
    ensures Collected(AskAll(c, asks), from) <==> AllTrue(c, asks)
    decreases |asks|
  {
    if asks != [] {
      var n := AskPage(c, asks[0]);
      if TrueAsk(c, asks[0]) {
        TrueAskKeepsCollected(c, asks[0], from);
        PagesConcatenateIff(n, asks[1..], from);
      } else {
        OtherAskGoesOffTrack(c, asks[0], from);
        OffTrackStays(n, asks[1..], from);
        OffTrackIsNotCollected(AskAll(n, asks[1..]), from);
      }
    }
  }

  ghost predicate Quiet(asks: seq<Ask>) { forall i :: 0 <= i < |asks| ==> asks[i].before == [] && asks[i].between == [] }

  /** On a quiet shell true requests reach the end: as many as there are unread bytes always do. */
  lemma {:induction false} PagingReachesTheEnd(c: Client, asks: seq<Ask>, from: nat)
    requires Collected(c, from) && AllTrue(c, asks) && Quiet(asks) && |asks| >= |c.h.stream| - c.offset
    ensures var n := AskAll(c, asks); n.h == c.h && n.offset == |c.h.stream| && n.got == c.h.stream[from..]
    decreases |asks|
  {
    if asks == [] {
      assert c.h.stream[from..c.offset] == c.h.stream[from..];
    } else {
      assert asks[0].before == [] && asks[0].between == [];
      TrueAskKeepsCollected(c, asks[0], from);
      var n := AskPage(c, asks[0]);
      assert n.h == c.h;
      PagingReachesTheEnd(n, asks[1..], from);
    }
  }

  /**
   Untrue requests are reachable: below the retained bytes two consecutive pages hand out the
   same bytes under different offsets, and neither says so.
   */
  lemma LivePagesRepeat(b: Buf, stream: Stream, offset: nat, k: nat)
    requires Live(b).Serves(stream) && k > 0 && offset + k < b.base && b.base + k <= |stream|
    ensures var one := PageAt(|stream|, b.base, stream, offset, k, 0);
            var two := PageAt(|stream|, b.base, stream, offset + k, k, 0);
            && one == Page(stream[b.base..b.base + k], offset + k, |stream|, true)
            && two == Page(stream[b.base..b.base + k], offset + 2 * k, |stream|, offset + 2 * k < |stream|)
  {
  }

  // ---------------------------------------------------------------- paging a persisted log

  /** What has been collected from a log that no longer grows, and the offset asked for next. */
  datatype Copy = Copy(got: Stream, offset: nat)

  datatype Limits = Limits(maxBytes: int, maxLines: int)

  function CopyAll(log: Stream, c: Copy, pages: seq<Limits>): Copy
    decreases |pages|
  {
    if pages == [] then c
    else
      var p := LogPage(log, c.offset, pages[0].maxBytes, pages[0].maxLines);
      CopyAll(log, Copy(c.got + p.raw, p.end), pages[1..])
  }

  /**
   Paging a persisted log, with any limits, collects exactly the log from the first offset on,
   and as many pages as there are unread bytes reach its end.
   */
  lemma {:induction false} PersistedPagesConcatenate(log: Stream, c: Copy, pages: seq<Limits>, from: nat)
    requires from <= c.offset <= |log| && c.got == log[from..c.offset]
    ensures var n := CopyAll(log, c, pages);
            && c.offset <= n.offset <= |log| && n.got == log[from..n.offset]
            && (|pages| >= |log| - c.offset ==> n.offset == |log|)
    decreases |pages|
  {
    if pages != [] {
      var p := LogPage(log, c.offset, pages[0].maxBytes, pages[0].maxLines);
      DrainMeetsLimits(log[c.offset..], pages[0].maxBytes, pages[0].maxLines);
      assert c.got + p.raw == log[from..p.end];
      PersistedPagesConcatenate(log, Copy(c.got + p.raw, p.end), pages[1..], from);
    }
  }
}
