/** Named keys and the bytes they send (internal/session/keys.go). Text is a string of characters. */
module TerminalKeys {
  import opened Basics
  import opened ApprovalQueue

  /** How a shell was opened: with a terminal or through pipes, and which line end its pipes want. */
  datatype Mode = Mode(pty: bool, crlf: bool)

  /** unicode.ToLower, as far as its results are ASCII; the last two are the only others. */
  function Lower(c: char): char {
    if 'A' <= c <= 'Z' then c - 'A' + 'a'
    else if c == '\U{212A}' then 'k'
    else if c == '\U{130}' then 'i'
    else c
  }

  function LowerAll(s: string): string {
    if s == "" then "" else [Lower(s[0])] + LowerAll(s[1..])
  }

  function TrimLeft(s: string): string {
    if s != "" && IsSpace(s[0]) then TrimLeft(s[1..]) else s
  }

  function TrimRight(s: string): string {
    if s != "" && IsSpace(s[|s| - 1]) then TrimRight(s[..|s| - 1]) else s
  }

  const ESC := "\U{1B}"

  /** What the name of a key comes down to: no blanks around it, no capitals. */
  function Plain(key: string): string { LowerAll(TrimRight(TrimLeft(key))) }

  function KeyBytes(key: string, mode: Mode): Option<string> { BytesOf(Plain(key), mode) }

  function BytesOf(k: string, mode: Mode): Option<string> {
    if k == "enter" then Some(if mode.pty then "\r" else if mode.crlf then "\r\n" else "\n")
    else if k == "tab" then Some("\t")
    else if k == "esc" || k == "escape" then Some(ESC)
    else if k == "up" then Some(ESC + "[A")
    else if k == "down" then Some(ESC + "[B")
    else if k == "right" then Some(ESC + "[C")
    else if k == "left" then Some(ESC + "[D")
    else if k == "backspace" then Some("\U{7F}")
    else if k == "delete" then Some(ESC + "[3~")
    else if k == "home" then Some(ESC + "[H")
    else if k == "end" then Some(ESC + "[F")
    else if k == "ctrl+c" then Some("\U{03}")
    else if k == "ctrl+d" then Some("\U{04}")
    else if k == "ctrl+z" then Some("\U{1A}")
    else if k == "ctrl+l" then Some("\U{0C}")
    else if k == "ctrl+u" then Some("\U{15}")
    else if k == "ctrl+w" then Some("\U{17}")
    else None
  }

  // ---------------------------------------------------------------- the table

  /** The names every shell knows besides enter, and the codes they stand for. */
  ghost predicate InTable(k: string, bytes: string) {
    || (k == "tab" && bytes == [9 as char])
    || ((k == "esc" || k == "escape") && bytes == [27 as char])
    || (k == "up" && bytes == [27 as char, '[', 'A'])
    || (k == "down" && bytes == [27 as char, '[', 'B'])
    || (k == "right" && bytes == [27 as char, '[', 'C'])
    || (k == "left" && bytes == [27 as char, '[', 'D'])
    || (k == "backspace" && bytes == [127 as char])
    || (k == "delete" && bytes == [27 as char, '[', '3', '~'])
    || (k == "home" && bytes == [27 as char, '[', 'H'])
    || (k == "end" && bytes == [27 as char, '[', 'F'])
    || (k == "ctrl+c" && bytes == [3 as char])
    || (k == "ctrl+d" && bytes == [4 as char])
    || (k == "ctrl+z" && bytes == [26 as char])
    || (k == "ctrl+l" && bytes == [12 as char])
    || (k == "ctrl+u" && bytes == [21 as char])
    || (k == "ctrl+w" && bytes == [23 as char])
  }

  /** Enter is a return on a terminal and the pipe's own line end otherwise. */
  lemma EnterInEachMode(key: string, mode: Mode)
    requires Plain(key) == "enter"
    ensures KeyBytes(key, mode) ==
            Some(if mode.pty then [13 as char] else if mode.crlf then [13 as char, 10 as char] else [10 as char])
  {
  }

  /** Every other key sends what the table says, in every mode, and a name that is not there is unknown. */
  lemma OtherKeysByTable(key: string, mode: Mode, bytes: string)
    requires Plain(key) != "enter"
    ensures KeyBytes(key, mode) == Some(bytes) <==> InTable(Plain(key), bytes)
  {
    assert ESC == [27 as char];
    assert ESC + "[A" == [27 as char, '[', 'A'] && ESC + "[B" == [27 as char, '[', 'B'];
    assert ESC + "[C" == [27 as char, '[', 'C'] && ESC + "[D" == [27 as char, '[', 'D'];
    assert ESC + "[H" == [27 as char, '[', 'H'] && ESC + "[F" == [27 as char, '[', 'F'];
    assert ESC + "[3~" == [27 as char, '[', '3', '~'];
  }

  lemma {:induction false} TrimLeftSkips(blanks: string, s: string)
    requires Blank(blanks)
    ensures TrimLeft(blanks + s) == TrimLeft(s)
  {
    if blanks == "" {
      assert blanks + s == s;
    } else {
      assert (blanks + s)[1..] == blanks[1..] + s;
      TrimLeftSkips(blanks[1..], s);
    }
  }

  lemma {:induction false} TrimRightSkips(s: string, blanks: string)
    requires Blank(blanks)
    ensures TrimRight(s + blanks) == TrimRight(s)
  {
    if blanks == "" {
      assert s + blanks == s;
    } else {
      var init := blanks[..|blanks| - 1];
      assert (s + blanks)[..|s + blanks| - 1] == s + init;
      TrimRightSkips(s, init);
    }
  }

  lemma {:induction false} TrimLeftKeepsTail(s: string, blanks: string)
    requires s != "" && !IsSpace(s[|s| - 1])
    ensures TrimLeft(s + blanks) == TrimLeft(s) + blanks
  {
    if IsSpace(s[0]) {
      assert (s + blanks)[1..] == s[1..] + blanks;
      TrimLeftKeepsTail(s[1..], blanks);
    }
  }

  /** Blanks around a name do not matter. */
  lemma BlanksDoNotMatter(before: string, key: string, after: string)
    requires Blank(before) && Blank(after) && key != "" && !IsSpace(key[|key| - 1])
    ensures Plain(before + key + after) == Plain(key)
  {
    assert before + key + after == before + (key + after);
    TrimLeftSkips(before, key + after);
    TrimLeftKeepsTail(key, after);
    TrimRightSkips(TrimLeft(key), after);
  }

  /** The 26 capitals become their small letters, and no other ASCII character changes. */
  lemma CapitalsAreLowered(c: char)
    ensures 'A' <= c <= 'Z' ==> Lower(c) as int == c as int + 32
    ensures c as int < 128 && !('A' <= c <= 'Z') ==> Lower(c) == c
  {
  }

  lemma LowerKeepsSpace(c: char)
    ensures IsSpace(Lower(c)) <==> IsSpace(c)
    ensures Lower(Lower(c)) == Lower(c)
  {
  }

  lemma {:induction false} LowerEach(s: string)
    ensures |LowerAll(s)| == |s| && forall i :: 0 <= i < |s| ==> LowerAll(s)[i] == Lower(s[i])
  {
    if s != "" {
      LowerEach(s[1..]);
    }
  }

  lemma LowerTwice(s: string)
    ensures LowerAll(LowerAll(s)) == LowerAll(s)
  {
    LowerEach(s);
    LowerEach(LowerAll(s));
    forall i | 0 <= i < |s| ensures LowerAll(LowerAll(s))[i] == LowerAll(s)[i] {
      LowerKeepsSpace(s[i]);
    }
  }

  lemma {:induction false} LowerThenTrimLeft(s: string)
    ensures TrimLeft(LowerAll(s)) == LowerAll(TrimLeft(s))
  {
    if s != "" {
      LowerKeepsSpace(s[0]);
      assert LowerAll(s)[1..] == LowerAll(s[1..]);
      LowerThenTrimLeft(s[1..]);
    }
  }

  lemma {:induction false} LowerThenTrimRight(s: string)
    ensures TrimRight(LowerAll(s)) == LowerAll(TrimRight(s))
  {
    if s != "" {
      var init := s[..|s| - 1];
      LowerEach(s);
      LowerEach(init);
      LowerKeepsSpace(s[|s| - 1]);
      assert LowerAll(s)[..|s| - 1] == LowerAll(init);
      LowerThenTrimRight(init);
    }
  }

  /** Capitals do not matter. */
  lemma CaseDoesNotMatter(key: string)
    ensures Plain(LowerAll(key)) == Plain(key)
  {
    LowerThenTrimLeft(key);
    LowerThenTrimRight(TrimLeft(key));
    LowerTwice(TrimRight(TrimLeft(key)));
  }

  /** bytes.Repeat */
  function Repeat(s: string, n: nat): string {
    if n == 0 then "" else s + Repeat(s, n - 1)
  }

  /** What pressing a key writes outright: nothing on an unknown key or too many repeats. */
  function Pressed(mode: Mode, key: string, repeat: int): string {
    if repeat > 20 then ""
    else
      match KeyBytes(key, mode)
      case None => ""
      case Some(b) => Repeat(b, if repeat < 1 then 1 else repeat)
  }

  /** What executing a reviewed line's keys writes: one key at a time, stopping at an unknown one. */
  function KeysPressed(mode: Mode, keys: seq<string>): string {
    if keys == [] || KeyBytes(keys[0], mode).None? then ""
    else Pressed(mode, keys[0], 1) + KeysPressed(mode, keys[1..])
  }

  function Copies(key: string, n: nat): seq<string> {
    if n == 0 then [] else [key] + Copies(key, n - 1)
  }

  lemma {:induction false} CopiesPressed(mode: Mode, key: string, n: nat)
    ensures KeysPressed(mode, Copies(key, n)) ==
            match KeyBytes(key, mode) case None => "" case Some(b) => Repeat(b, n)
  {
    if n > 0 {
      var keys := Copies(key, n);
      assert keys[0] == key && keys[1..] == Copies(key, n - 1);
      CopiesPressed(mode, key, n - 1);
      if KeyBytes(key, mode).Some? {
        var b := KeyBytes(key, mode).value;
        assert Repeat(b, 1) == b + Repeat(b, 0) == b;
      }
    }
  }

  lemma {:induction false} RepeatLength(s: string, n: nat)
    ensures |Repeat(s, n)| == |s| * n
  {
    if n > 0 {
      RepeatLength(s, n - 1);
      assert |s| * n == |s| + |s| * (n - 1);
    }
  }

  /** The repeats agree between the reviewed and the direct press exactly from 1 to 20, or for an unknown key. */
  lemma RepeatsAgreeIff(mode: Mode, key: string, repeat: int)
    ensures KeysPressed(mode, Copies(key, if repeat < 0 then 0 else repeat)) == Pressed(mode, key, repeat)
            <==> 1 <= repeat <= 20 || KeyBytes(key, mode).None?
  {
    var n := if repeat < 0 then 0 else repeat;
    CopiesPressed(mode, key, n);
    if KeyBytes(key, mode).Some? {
      var b := KeyBytes(key, mode).value;
      assert |b| > 0;
      RepeatLength(b, n);
      RepeatLength(b, 1);
      if n > 20 {
        assert |b| * n > 0;
      }
    }
  }
}
