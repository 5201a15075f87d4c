/**
 * The firewall monitor's line buffer: a static 2000-byte `fw_buf` with a
 * cursor `fw_ptr` and a remaining capacity `fw_left`, filled by
 * `fw_buf_add`, `fw_buf_addc` and `fw_add_long_line` and written out to the
 * trace by `fw_buf_flush`.
 */
module LineBuffer {
  import opened Common

  /** `sizeof(fw_buf)`. */
  const BUF_SIZE: nat := 2000

  /**
   * The most text the buffer holds: `fw_buf_addc` refuses once `fw_left`
   * is down to 1, which keeps a byte free for the terminator.
   */
  const CAPACITY: nat := BUF_SIZE - 2

  /** Appending to a full buffer keeps its first `CAPACITY` bytes. */
  function Capped(s: string): (r: string)
    ensures |r| <= CAPACITY
    ensures |s| <= CAPACITY ==> r == s
    ensures |s| > CAPACITY ==> r == s[..CAPACITY]
  {
    if |s| <= CAPACITY then s else s[..CAPACITY]
  }

  /** Capping part-way changes nothing about the final result. */
  lemma CappedAppend(a: string, b: string)
    ensures Capped(Capped(a) + b) == Capped(a + b)
  {
    if |a| > CAPACITY {
      assert (Capped(a) + b)[..CAPACITY] == (a + b)[..CAPACITY];
    }
  }

  function Spaces(n: nat): (r: string)
    ensures |r| == n && forall i | 0 <= i < n :: r[i] == ' '
  {
    if n == 0 then [] else Spaces(n - 1) + " "
  }

  /** A C routine sees a buffer only up to the terminator written into it. */
  lemma {:induction false} UpToNulBefore(a: string, b: string)
    requires b != [] && b[0] == '\0'
    ensures UpToNul(a + b) == UpToNul(a)
  {
    if a != [] && a[0] != '\0' {
      assert (a + b)[1..] == a[1..] + b;
      UpToNulBefore(a[1..], b);
    }
  }

  class FwBuffer {
    /** `fw_buf`. */
    var buf: array<char>
    /** `fw_ptr - fw_buf`. */
    var ptr: nat
    /** `fw_left`. */
    var left: int
    /** The lines handed to `trace_puts`, oldest first. */
    var output: seq<string>

    ghost predicate Valid()
      reads this
    {
      buf.Length == BUF_SIZE && ptr + left == BUF_SIZE - 1 && left >= 1
    }

    /** The text collected so far. */
    function Contents(): (r: string)
      requires Valid()
      reads this, buf
      ensures |r| <= CAPACITY
    {
      buf[..ptr]
    }

    constructor ()
      ensures Valid() && fresh(buf) && Contents() == [] && output == []
    {
      buf := new char[BUF_SIZE](_ => '\0');
      ptr := 0;
      left := BUF_SIZE - 1;
      output := [];
    }

    /** `fw_buf_reset`. */
    method Reset()
      requires Valid()
      modifies this
      ensures Valid() && Contents() == [] && output == old(output) && buf == old(buf)
      ensures left == BUF_SIZE - 1
    {
      ptr := 0;
      left := BUF_SIZE - 1;
    }

    /**
     * `fw_buf_addc`: stores `ch` and answers 1 while more than one byte is
     * left, and otherwise answers 0 and changes nothing.
     */
    method AddC(ch: char) returns (r: int)
      requires Valid()
      modifies this, buf
      ensures Valid() && buf == old(buf) && output == old(output)
      ensures r == 1 <==> old(left) > 1
      ensures r == 0 <==> old(left) <= 1
      ensures r == 1 ==> Contents() == old(Contents()) + [ch] && left == old(left) - 1
      ensures r == 0 ==> Contents() == old(Contents()) && left == old(left)
      ensures Contents() == Capped(old(Contents()) + [ch])
    {
      if left <= 1 {
        assert (buf[..ptr] + [ch])[..CAPACITY] == buf[..ptr];
        return 0;
      }
      buf[ptr] := ch;
      ptr := ptr + 1;
      left := left - 1;
      assert buf[..ptr] == old(buf[..ptr]) + [ch];
      return 1;
    }

    /**
     * `fw_buf_add(fmt, ...)` where `text` is what the format engine makes
     * of `fmt` and its arguments: nothing happens when fewer bytes are left
     * than `fmt` is long; otherwise the text is appended, terminated, and
     * its length returned. The text must fit in what is left.
     */
    method Add(fmt: string, text: string) returns (len: int)
      requires Valid()
      requires |fmt| <= left ==> |text| < left
      modifies this, buf
      ensures Valid() && buf == old(buf) && output == old(output)
      ensures old(left) < |fmt| ==> len == 0 && Contents() == old(Contents()) && left == old(left)
      ensures old(left) >= |fmt| ==> len == |text| && Contents() == old(Contents()) + text
      ensures old(left) >= |fmt| ==> left == old(left) - |text| && buf[ptr] == '\0'
    {
      if left < |fmt| {
        return 0;
      }
      var k := 0;
      while k < |text|
        invariant 0 <= k <= |text| && ptr + |text| < BUF_SIZE
        invariant buf == old(buf) && ptr == old(ptr) && left == old(left) && output == old(output)
        invariant buf[..ptr + k] == old(buf[..ptr]) + text[..k]
      {
        buf[ptr + k] := text[k];
        k := k + 1;
      }
      buf[ptr + k] := '\0';
      assert buf[..ptr + k] == old(buf[..ptr]) + text;
      ptr := ptr + |text|;
      left := left - |text|;
      len := |text|;
    }

    /**
     * `fw_buf_flush`: a non-empty buffer is terminated and handed to the
     * trace (which reads it up to its first NUL); then the buffer is reset.
     */
    method Flush()
      requires Valid()
      modifies this, buf
      ensures Valid() && buf == old(buf) && Contents() == [] && left == BUF_SIZE - 1
      ensures old(ptr) > 0 ==> output == old(output) + [UpToNul(old(Contents()))]
      ensures old(ptr) == 0 ==> output == old(output)
    {
      if ptr > 0 {
        buf[ptr] := '\0';
        assert buf[..] == buf[..ptr] + buf[ptr..];
        UpToNulBefore(buf[..ptr], buf[ptr..]);
        output := output + [UpToNul(buf[..])];
      }
      Reset();
    }

    /** Appends the spaces of an indent, one `fw_buf_addc` at a time. */
    method AddSpaces(indent: nat)
      requires Valid()
      modifies this, buf
      ensures Valid() && buf == old(buf) && output == old(output)
      ensures Contents() == Capped(old(Contents()) + Spaces(indent))
    {
      var i := 0;
      while i < indent
        invariant 0 <= i <= indent && Valid() && buf == old(buf) && output == old(output)
        invariant Contents() == Capped(old(Contents()) + Spaces(i))
      {
        var _ := AddC(' ');
        CappedAppend(old(Contents()) + Spaces(i), [' ']);
        assert old(Contents()) + Spaces(i) + [' '] == old(Contents()) + Spaces(i + 1);
        i := i + 1;
      }
    }

    /** A line break: `brk` unless it is a space, a newline, the indent. */
    method AddBreak(brk: char, indent: nat)
      requires Valid()
      modifies this, buf
      ensures Valid() && buf == old(buf) && output == old(output)
      ensures Contents() == Capped(old(Contents()) + BreakText(brk, indent))
    {
      ghost var c0 := Contents();
      if brk != ' ' {
        var _ := AddC(brk);
      }
      ghost var c1 := Contents();
      var _ := AddC('\n');
      ghost var c2 := Contents();
      AddSpaces(indent);
      CappedBreak(c0, brk, indent);
    }

    /**
     * `fw_add_long_line(s, indent, brk)`: the text of `s` re-flowed at
     * `width` (`g_cfg.screen_width`), followed by a newline, as far as the
     * buffer has room for it.
     */
    method AddLongLine(s: string, indent: nat, brk: char, width: int)
      requires Valid() && '\0' !in s
      modifies this, buf
      ensures Valid() && buf == old(buf) && output == old(output)
      ensures Contents() == Capped(old(Contents()) + LongLine(s, indent, brk, width))
    {
      var room: nat := Reload(width, indent);
      var c, st := 0, 0;
      ghost var target := old(Contents()) + LongLine(s, indent, brk, width);
      ghost var full := false;
      while c < |s|
        invariant Valid() && buf == old(buf) && output == old(output) && !full
        invariant st <= c <= |s| && room < U64_MOD
        invariant Capped(Contents() + (WrapFrom(s, c, st, room, indent, brk, width) + "\n")) == Capped(target)
        decreases |s| - c
      {
        if IsSep(s[c], brk) {
          var p := NextBreak(s, c + 1, brk);
          if room < 2 || room <= p - c {
            ghost var before := Contents();
            AddBreak(brk, indent);
            WrapBreakStep(before, s, c, st, room, indent, brk, width);
            room := Reload(width, indent);
            c := c + 1;
            st := c;
            continue;
          }
          if c > st && IsSep(s[c - 1], brk) {
            c := c + 1;
            st := c;
            continue;
          }
        }
        ghost var before := Contents();
        var ok := AddC(s[c]);
        WrapCopyStep(before, s, c, st, room, indent, brk, width);
        c := c + 1;
        if ok == 0 {
          full := true;
          break;
        }
        room := DecU64(room);
      }
      ghost var beforeNl := Contents();
      if full {
        CappedFull(beforeNl, WrapFrom(s, c, st, room, indent, brk, width) + "\n");
        CappedFull(beforeNl, "\n");
      } else {
        assert beforeNl + (WrapFrom(s, c, st, room, indent, brk, width) + "\n") == beforeNl + "\n";
      }
      var _ := AddC('\n');
    }
  }

  /** A step of the re-flow that breaks the line at `s[c]`. */
  lemma WrapBreakStep(before: string, s: string, c: nat, st: nat, room: nat, indent: nat, brk: char, width: int)
    requires st <= c < |s| && room < U64_MOD && IsSep(s[c], brk)
    requires room < 2 || room <= NextBreak(s, c + 1, brk) - c
    ensures Capped(Capped(before + BreakText(brk, indent)) + (WrapFrom(s, c + 1, c + 1, Reload(width, indent), indent, brk, width) + "\n"))
         == Capped(before + (WrapFrom(s, c, st, room, indent, brk, width) + "\n"))
  {
    var b := BreakText(brk, indent);
    var rest := WrapFrom(s, c + 1, c + 1, Reload(width, indent), indent, brk, width);
    CappedAppend(before + b, rest + "\n");
    assert before + b + (rest + "\n") == before + ((b + rest) + "\n");
  }

  /** A step of the re-flow that copies `s[c]`. */
  lemma WrapCopyStep(before: string, s: string, c: nat, st: nat, room: nat, indent: nat, brk: char, width: int)
    requires st <= c < |s| && room < U64_MOD
    requires IsSep(s[c], brk) ==> !(room < 2 || room <= NextBreak(s, c + 1, brk) - c) && !(c > st && IsSep(s[c - 1], brk))
    ensures Capped(Capped(before + [s[c]]) + (WrapFrom(s, c + 1, st, DecU64(room), indent, brk, width) + "\n"))
         == Capped(before + (WrapFrom(s, c, st, room, indent, brk, width) + "\n"))
  {
    var rest := WrapFrom(s, c + 1, st, DecU64(room), indent, brk, width);
    CappedAppend(before + [s[c]], rest + "\n");
    assert before + [s[c]] + (rest + "\n") == before + (([s[c]] + rest) + "\n");
  }

  /** `g_cfg.screen_width - indent` as the `size_t` the routine keeps it in. */
  function Reload(width: int, indent: nat): (r: nat)
    ensures r < U64_MOD
    ensures 0 <= width - indent ==> r == width - indent || width - indent >= U64_MOD
  {
    (width - indent) % U64_MOD
  }

  /** `left--` on a `size_t`: from 0 it wraps to the largest value. */
  function DecU64(x: nat): (r: nat)
    requires x < U64_MOD
    ensures r < U64_MOD && (x > 0 ==> r == x - 1)
    ensures x == 0 ==> r == U64_MOD - 1
  {
    if x == 0 then U64_MOD - 1 else x - 1
  }

  /**
   * The index `strchr(s + from, brk)` points at, or the end of the text
   * when `brk` does not occur again.
   */
  function NextBreak(s: string, from: nat, brk: char): (r: nat)
    requires from <= |s|
    ensures from <= r <= |s|
    ensures r < |s| ==> s[r] == brk
    ensures forall i | from <= i < r :: s[i] != brk
    decreases |s| - from
  {
    if from == |s| || s[from] == brk then from else NextBreak(s, from + 1, brk)
  }

  predicate IsSep(ch: char, brk: char)
  {
    ch == brk || ch == '-'
  }

  /** What a line break writes: `brk` unless it is a space, a newline, the indent. */
  function BreakText(brk: char, indent: nat): (r: string)
    ensures |r| >= 1 + indent
  {
    (if brk != ' ' then [brk] else []) + "\n" + Spaces(indent)
  }

  /**
   * The text `fw_add_long_line` produces from index `c` of `s` on, with no
   * limit on room: `st` is where the current run started (the last break or
   * dropped separator), `left` the columns left on the line. A separator
   * (`brk` or `'-'`) starts a new line when fewer than two columns are left
   * or the text up to the next `brk` would not fit, and is dropped when it
   * directly follows another separator of the same run.
   */
  function WrapFrom(s: string, c: nat, st: nat, left: nat, indent: nat, brk: char, width: int): (r: string)
    requires st <= c <= |s| && left < U64_MOD
    decreases |s| - c
  {
    if c == |s| then []
    else if IsSep(s[c], brk) && (left < 2 || left <= NextBreak(s, c + 1, brk) - c) then
      BreakText(brk, indent) + WrapFrom(s, c + 1, c + 1, Reload(width, indent), indent, brk, width)
    else if IsSep(s[c], brk) && c > st && IsSep(s[c - 1], brk) then
      WrapFrom(s, c + 1, c + 1, left, indent, brk, width)
    else
      [s[c]] + WrapFrom(s, c + 1, st, DecU64(left), indent, brk, width)
  }

  /** Everything `fw_add_long_line` appends when there is room for it. */
  function LongLine(s: string, indent: nat, brk: char, width: int): (r: string)
    ensures |r| >= 1 && r[|r| - 1] == '\n'
  {
    WrapFrom(s, 0, 0, Reload(width, indent), indent, brk, width) + "\n"
  }

  lemma CappedBreak(x: string, brk: char, indent: nat)
    ensures var b := if brk != ' ' then [brk] else [];
            Capped(Capped(Capped(x + b) + "\n") + Spaces(indent)) == Capped(x + BreakText(brk, indent))
  {
    var b := if brk != ' ' then [brk] else [];
    CappedAppend(x + b, "\n");
    CappedAppend(x + b + "\n", Spaces(indent));
    assert x + b + "\n" + Spaces(indent) == x + BreakText(brk, indent);
  }

  /** A full buffer takes nothing more. */
  lemma CappedFull(full: string, more: string)
    requires |full| == CAPACITY
    ensures Capped(full + more) == full
  {
    assert (full + more)[..CAPACITY] == full;
  }

  // ------------------------------------------------ properties of the wrap

  /** The characters a re-flow may add or drop: separators, newlines, spaces. */
  predicate IsLayout(ch: char, brk: char)
  {
    ch == brk || ch == '-' || ch == '\n' || ch == ' '
  }

  /** The text with its layout characters removed. */
  function Words(s: string, brk: char): (r: string)
    ensures forall i | 0 <= i < |r| :: !IsLayout(r[i], brk)
  {
    if s == [] then []
    else (if IsLayout(s[0], brk) then [] else [s[0]]) + Words(s[1..], brk)
  }

  lemma {:induction false} WordsAppend(a: string, b: string, brk: char)
    ensures Words(a + b, brk) == Words(a, brk) + Words(b, brk)
  {
    if a != [] {
      assert (a + b)[1..] == a[1..] + b;
      WordsAppend(a[1..], b, brk);
    } else {
      assert a + b == b;
    }
  }

  lemma {:induction false} WordsOfLayout(t: string, brk: char)
    requires forall i | 0 <= i < |t| :: IsLayout(t[i], brk)
    ensures Words(t, brk) == []
  {
    if t != [] {
      WordsOfLayout(t[1..], brk);
    }
  }

  /**
   * Re-flowing never loses, adds or reorders a character of the text
   * proper: with layout characters removed, the output is the input.
   */
  lemma {:induction false} WrapKeepsWords(s: string, c: nat, st: nat, left: nat, indent: nat, brk: char, width: int)
    requires st <= c <= |s| && left < U64_MOD
    ensures Words(WrapFrom(s, c, st, left, indent, brk, width), brk) == Words(s[c..], brk)
    decreases |s| - c
  {
    if c < |s| {
      assert s[c..] == [s[c]] + s[c + 1..];
      WordsAppend([s[c]], s[c + 1..], brk);
      if IsSep(s[c], brk) && (left < 2 || left <= NextBreak(s, c + 1, brk) - c) {
        var b := BreakText(brk, indent);
        WrapKeepsWords(s, c + 1, c + 1, Reload(width, indent), indent, brk, width);
        WordsAppend(b, WrapFrom(s, c + 1, c + 1, Reload(width, indent), indent, brk, width), brk);
        WordsOfLayout(b, brk);
      } else if IsSep(s[c], brk) && c > st && IsSep(s[c - 1], brk) {
        WrapKeepsWords(s, c + 1, c + 1, left, indent, brk, width);
      } else {
        WrapKeepsWords(s, c + 1, st, DecU64(left), indent, brk, width);
        WordsAppend([s[c]], WrapFrom(s, c + 1, st, DecU64(left), indent, brk, width), brk);
      }
    }
  }

  /** The only newline of a break is the one before its indent. */
  lemma BreakTextNewline(brk: char, indent: nat, j: nat)
    requires brk != '\n'
    requires j < |BreakText(brk, indent)| && BreakText(brk, indent)[j] == '\n'
    ensures j + indent + 1 == |BreakText(brk, indent)|
    ensures BreakText(brk, indent)[j + 1..] == Spaces(indent)
  {
    var b := BreakText(brk, indent);
    var n := |b| - indent - 1;
    assert b[n + 1..] == Spaces(indent);
    assert n == 0 || b[0] == brk;
  }

  /** The newline at `j` of `r` is followed by a full indent. */
  predicate IndentedAt(r: string, j: nat, indent: nat)
  {
    j + indent < |r| && r[j + 1..j + 1 + indent] == Spaces(indent)
  }

  lemma IndentedShift(a: string, rest: string, j: nat, indent: nat)
    requires |a| <= j && IndentedAt(rest, j - |a|, indent)
    ensures IndentedAt(a + rest, j, indent)
  {
    assert (a + rest)[j + 1..j + 1 + indent] == rest[j - |a| + 1..j - |a| + 1 + indent];
  }

  lemma IndentedInBreak(brk: char, indent: nat, rest: string, j: nat)
    requires brk != '\n'
    requires j < |BreakText(brk, indent)| && BreakText(brk, indent)[j] == '\n'
    ensures IndentedAt(BreakText(brk, indent) + rest, j, indent)
  {
    var b := BreakText(brk, indent);
    BreakTextNewline(brk, indent, j);
    assert (b + rest)[j + 1..j + 1 + indent] == b[j + 1..];
  }

  /**
   * Every newline a re-flow writes into text without newlines is followed
   * by exactly the `indent` spaces of the new line.
   */
  lemma {:induction false} BreaksAreIndented(s: string, c: nat, st: nat, left: nat, indent: nat, brk: char, width: int, j: nat)
    requires st <= c <= |s| && left < U64_MOD && '\n' !in s && brk != '\n'
    requires j < |WrapFrom(s, c, st, left, indent, brk, width)|
    requires WrapFrom(s, c, st, left, indent, brk, width)[j] == '\n'
    ensures IndentedAt(WrapFrom(s, c, st, left, indent, brk, width), j, indent)
    decreases |s| - c
  {
    if IsSep(s[c], brk) && (left < 2 || left <= NextBreak(s, c + 1, brk) - c) {
      var b := BreakText(brk, indent);
      var rest := WrapFrom(s, c + 1, c + 1, Reload(width, indent), indent, brk, width);
      if j < |b| {
        IndentedInBreak(brk, indent, rest, j);
      } else {
        BreaksAreIndented(s, c + 1, c + 1, Reload(width, indent), indent, brk, width, j - |b|);
        IndentedShift(b, rest, j, indent);
      }
    } else if IsSep(s[c], brk) && c > st && IsSep(s[c - 1], brk) {
      BreaksAreIndented(s, c + 1, c + 1, left, indent, brk, width, j);
    } else {
      var rest := WrapFrom(s, c + 1, st, DecU64(left), indent, brk, width);
      BreaksAreIndented(s, c + 1, st, DecU64(left), indent, brk, width, j - 1);
      IndentedShift([s[c]], rest, j, indent);
    }
  }

  /** No separator directly follows another separator in `s`. */
  predicate NoDoubledSeparators(s: string, brk: char)
  {
    forall i | 0 < i < |s| :: IsSep(s[i], brk) ==> !IsSep(s[i - 1], brk)
  }

  /**
   * A text that fits on the line with two columns to spare, and has no
   * doubled separators, is copied unchanged.
   */
  lemma {:induction false} FittingTextUnchanged(s: string, c: nat, st: nat, left: nat, indent: nat, brk: char, width: int)
    requires st <= c <= |s| && left < U64_MOD
    requires left >= |s| - c + 2 && NoDoubledSeparators(s, brk)
    ensures WrapFrom(s, c, st, left, indent, brk, width) == s[c..]
    decreases |s| - c
  {
    if c < |s| {
      assert NextBreak(s, c + 1, brk) - c <= |s| - c;
      FittingTextUnchanged(s, c + 1, st, DecU64(left), indent, brk, width);
      assert s[c..] == [s[c]] + s[c + 1..];
    }
  }

  /** The whole line: when it fits it is the text and a newline. */
  lemma FittingLine(s: string, indent: nat, brk: char, width: int)
    requires 0 <= width - indent < U64_MOD && width - indent >= |s| + 2
    requires NoDoubledSeparators(s, brk)
    ensures LongLine(s, indent, brk, width) == s + "\n"
  {
    FittingTextUnchanged(s, 0, 0, Reload(width, indent), indent, brk, width);
  }

  /**
   * A dropped separator ends the run it belongs to, so the next separator
   * starts a new run and is kept: of a run of separators only every second
   * one is dropped, and three become two.
   */
  lemma SeparatorRunAlternates()
    ensures LongLine("a--b", 0, ' ', 80) == "a-b\n"
    ensures LongLine("a---b", 0, ' ', 80) == "a--b\n"
    ensures LongLine("a   b", 0, ' ', 80) == "a  b\n"
  {
  }

  /** Every second character of a run, starting with its first. */
  function EverySecond(run: string): (r: string)
    ensures |r| == (|run| + 1) / 2
  {
    if |run| <= 1 then run else [run[0]] + EverySecond(run[2..])
  }

  /**
   * With room to spare, a run of `n` separators that starts a run (at the
   * start of the current stretch or after another character) comes out as
   * its first, third, fifth … separator, followed by the character after it.
   */
  lemma {:induction false} SeparatorRunHalved(s: string, c: nat, st: nat, left: nat, n: nat, indent: nat, brk: char, width: int)
    requires st <= c && c + n < |s| && left < U64_MOD && left >= |s| - c + 2
    requires forall i | c <= i < c + n :: IsSep(s[i], brk)
    requires !IsSep(s[c + n], brk)
    requires c == st || !IsSep(s[c - 1], brk)
    ensures EverySecond(s[c..c + n]) + [s[c + n]] <= WrapFrom(s, c, st, left, indent, brk, width)
    decreases n
  {
    assert NextBreak(s, c + 1, brk) - c <= |s| - c;
    if n == 1 {
      assert NextBreak(s, c + 2, brk) - (c + 1) <= |s| - c - 1;
    } else if n >= 2 {
      assert NextBreak(s, c + 2, brk) - (c + 1) <= |s| - c - 1;
      SeparatorRunHalved(s, c + 2, c + 2, DecU64(left), n - 2, indent, brk, width);
      assert s[c..c + n][2..] == s[c + 2..c + n];
    }
  }

  /**
   * While more columns are left than the rest of the text is long, no
   * separator starts a new line: the rest keeps its own newlines only.
   */
  lemma {:induction false} NoBreakWhileRoom(s: string, c: nat, st: nat, left: nat, indent: nat, brk: char, width: int)
    requires st <= c <= |s| && left < U64_MOD
    requires left >= |s| - c + 2
    ensures '\n' !in s[c..] ==> '\n' !in WrapFrom(s, c, st, left, indent, brk, width)
    decreases |s| - c
  {
    if c < |s| && '\n' !in s[c..] {
      assert NextBreak(s, c + 1, brk) - c <= |s| - c;
      assert s[c..] == [s[c]] + s[c + 1..];
      if IsSep(s[c], brk) && c > st && IsSep(s[c - 1], brk) {
        NoBreakWhileRoom(s, c + 1, c + 1, left, indent, brk, width);
      } else {
        NoBreakWhileRoom(s, c + 1, st, DecU64(left), indent, brk, width);
      }
    }
  }

  /**
   * Once a word longer than the room left has been copied, `left--` has
   * wrapped from 0 and the rest of the line is never broken again, since
   * only a break reloads `left`.
   */
  lemma NoBreakAfterOverrun(s: string, c: nat, st: nat, indent: nat, brk: char, width: int)
    requires st <= c <= |s| && |s| < U64_MOD - 2
    ensures '\n' !in s[c..] ==> '\n' !in WrapFrom(s, c, st, DecU64(0), indent, brk, width)
  {
    NoBreakWhileRoom(s, c, st, DecU64(0), indent, brk, width);
  }

  /**
   * On a 3-column line, `"abcd"` overruns the room, and the two later
   * separators, which would each have started a new line, are copied.
   */
  lemma OverrunLineUnbroken()
    ensures LongLine("abcd e f", 0, ' ', 3) == "abcd e f\n"
  {
    var s := "abcd e f";
    NoBreakAfterOverrun(s, 4, 0, 0, ' ', 3);
    assert WrapFrom(s, 3, 0, 0, 0, ' ', 3) == "d" + WrapFrom(s, 4, 0, DecU64(0), 0, ' ', 3);
    assert WrapFrom(s, 0, 0, 3, 0, ' ', 3) == "abc" + WrapFrom(s, 3, 0, 0, 0, ' ', 3);
  }
}
