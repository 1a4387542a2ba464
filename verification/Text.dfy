/** Lines, trimming, splitting and decimal numbers, as the configuration
    language uses them. */
module Text {
  import opened Prelude

  /** Unicode White_Space, which is what `trim` strips. */
  predicate IsSpace(c: char) {
    var n := c as int;
    || 0x09 <= n <= 0x0D || n == 0x20 || n == 0x85 || n == 0xA0 || n == 0x1680
    || 0x2000 <= n <= 0x200A || n == 0x2028 || n == 0x2029 || n == 0x202F || n == 0x205F || n == 0x3000
  }

  predicate AllSpaces(s: string) { forall i :: 0 <= i < |s| ==> IsSpace(s[i]) }

  function TrimStart(s: string): string {
    if s != [] && IsSpace(s[0]) then TrimStart(s[1..]) else s
  }

  function TrimEnd(s: string): string {
    if s != [] && IsSpace(s[|s| - 1]) then TrimEnd(s[..|s| - 1]) else s
  }

  function Trim(s: string): string { TrimEnd(TrimStart(s)) }

  function LowerChar(c: char): char {
    if 'A' <= c <= 'Z' then (c as int + 32) as char else c
  }

  /** `to_ascii_lowercase`. */
  function Lower(s: string): (r: string)
    ensures |r| == |s|
  {
    seq(|s|, i requires 0 <= i < |s| => LowerChar(s[i]))
  }

  function StripSpaces(s: string): string {
    if s == [] then [] else (if IsSpace(s[0]) then [] else [s[0]]) + StripSpaces(s[1..])
  }

  /** The position of the first `c`, or the length. */
  function IndexOf(s: string, c: char): (i: nat)
    ensures i <= |s| && (forall j :: 0 <= j < i ==> s[j] != c) && (i < |s| ==> s[i] == c)
  {
    if s == [] || s[0] == c then 0 else 1 + IndexOf(s[1..], c)
  }

  /** The position of the last `c`, or the length. */
  function LastIndexOf(s: string, c: char): (i: nat)
    ensures i <= |s| && (i < |s| ==> s[i] == c && forall j :: i < j < |s| ==> s[j] != c)
    ensures i == |s| ==> c !in s
  {
    if s == [] then 0
    else if s[|s| - 1] == c then |s| - 1
    else
      var i := LastIndexOf(s[..|s| - 1], c);
      if i == |s| - 1 then |s| else i
  }

  /** The part before the first `#`. */
  function BeforeHash(s: string): string { s[..IndexOf(s, '#')] }

  /** `split_once`. */
  function SplitOnce(s: string, c: char): Option<(string, string)> {
    var i := IndexOf(s, c);
    if i == |s| then None else Some((s[..i], s[i + 1..]))
  }

  /** `rsplit_once`. */
  function RSplitOnce(s: string, c: char): Option<(string, string)> {
    var i := LastIndexOf(s, c);
    if i == |s| then None else Some((s[..i], s[i + 1..]))
  }

  function Split(s: string, c: char): seq<string>
    decreases |s|
  {
    var i := IndexOf(s, c);
    if i == |s| then [s] else [s[..i]] + Split(s[i + 1..], c)
  }

  function StripCr(s: string): string {
    if s != [] && s[|s| - 1] == '\r' then s[..|s| - 1] else s
  }

  /** `str::lines`: a final line without a newline counts and keeps its `\r`. */
  function Lines(s: string): seq<string>
    decreases |s|
  {
    if s == [] then []
    else
      var i := IndexOf(s, '\n');
      if i == |s| then [s] else [StripCr(s[..i])] + Lines(s[i + 1..])
  }

  function Unlines(lines: seq<string>): string {
    if lines == [] then [] else Unlines(lines[..|lines| - 1]) + lines[|lines| - 1] + "\n"
  }

  // ---- decimal ------------------------------------------------------------------

  predicate IsDigit(c: char) { '0' <= c <= '9' }

  function DigitValue(c: char): nat
    requires IsDigit(c)
  {
    c as int - '0' as int
  }

  function DigitChar(d: nat): char
    requires d < 10
  {
    ('0' as int + d) as char
  }

  predicate AllDigits(s: string) { forall i :: 0 <= i < |s| ==> IsDigit(s[i]) }

  function DecValue(s: string): nat
    requires AllDigits(s)
  {
    if s == [] then 0 else DecValue(s[..|s| - 1]) * 10 + DigitValue(s[|s| - 1])
  }

  /** `parse::<u16>`: an optional `+`, then at least one digit, below 65536. */
  function ParseU16(s: string): Option<nat> {
    var digits := if s != [] && s[0] == '+' then s[1..] else s;
    if digits != [] && AllDigits(digits) && DecValue(digits) < 0x10000 then Some(DecValue(digits)) else None
  }

  function PrintDec(n: nat): string {
    if n < 10 then [DigitChar(n)] else PrintDec(n / 10) + [DigitChar(n % 10)]
  }

  lemma {:induction false} PrintDecParses(n: nat)
    ensures PrintDec(n) != [] && AllDigits(PrintDec(n)) && DecValue(PrintDec(n)) == n
  {
    if n < 10 {
      assert PrintDec(n)[..0] == [];
    } else {
      PrintDecParses(n / 10);
      var s := PrintDec(n);
      assert s[..|s| - 1] == PrintDec(n / 10);
    }
  }

  /** Printing a `u16` and parsing it returns it. */
  lemma PrintedU16Parses(n: nat)
    requires n < 0x10000
    ensures ParseU16(PrintDec(n)) == Some(n)
  {
    PrintDecParses(n);
  }

  // ---- trimming --------------------------------------------------------------------

  lemma {:induction false} TrimStartKeeps(a: string, c: char, b: string)
    requires !IsSpace(c)
    ensures TrimStart(a + [c] + b) == TrimStart(a) + [c] + b
  {
    if a != [] && IsSpace(a[0]) {
      assert (a + [c] + b)[1..] == a[1..] + [c] + b;
      TrimStartKeeps(a[1..], c, b);
    } else if a == [] {
      assert a + [c] + b == [c] + b;
      assert TrimStart(a) + [c] + b == [c] + b;
    }
  }

  lemma {:induction false} TrimEndKeeps(a: string, c: char, b: string)
    requires !IsSpace(c)
    ensures TrimEnd(a + [c] + b) == a + [c] + TrimEnd(b)
  {
    var s := a + [c] + b;
    if b != [] && IsSpace(b[|b| - 1]) {
      assert s[..|s| - 1] == a + [c] + b[..|b| - 1];
      TrimEndKeeps(a, c, b[..|b| - 1]);
    } else if b == [] {
      assert s == a + [c];
    }
  }

  /** Trimming around a character that is not a space. */
  lemma TrimKeepsMiddle(a: string, c: char, b: string)
    requires !IsSpace(c)
    ensures Trim(a + [c] + b) == TrimStart(a) + [c] + TrimEnd(b)
  {
    TrimStartKeeps(a, c, b);
    TrimEndKeeps(TrimStart(a), c, b);
  }

  lemma {:induction false} TrimStartSuffix(s: string)
    ensures |TrimStart(s)| <= |s| && TrimStart(s) == s[|s| - |TrimStart(s)|..]
    ensures AllSpaces(s[..|s| - |TrimStart(s)|])
    ensures TrimStart(s) != [] ==> !IsSpace(TrimStart(s)[0])
  {
    if s != [] && IsSpace(s[0]) {
      TrimStartSuffix(s[1..]);
      assert s[..|s| - |TrimStart(s)|] == [s[0]] + s[1..][..|s| - 1 - |TrimStart(s)|];
    }
  }

  lemma {:induction false} TrimEndPrefix(s: string)
    ensures |TrimEnd(s)| <= |s| && TrimEnd(s) == s[..|TrimEnd(s)|]
    ensures AllSpaces(s[|TrimEnd(s)|..])
    ensures TrimEnd(s) != [] ==> !IsSpace(TrimEnd(s)[|TrimEnd(s)| - 1])
  {
    if s != [] && IsSpace(s[|s| - 1]) {
      TrimEndPrefix(s[..|s| - 1]);
      assert s[|TrimEnd(s)|..] == s[..|s| - 1][|TrimEnd(s)|..] + [s[|s| - 1]];
    }
  }

  lemma {:induction false} TrimStartMembers(s: string, c: char)
    ensures c in TrimStart(s) ==> c in s
  {
    if s != [] && IsSpace(s[0]) {
      TrimStartMembers(s[1..], c);
    }
  }

  lemma {:induction false} TrimEndMembers(s: string, c: char)
    ensures c in TrimEnd(s) ==> c in s
  {
    if s != [] && IsSpace(s[|s| - 1]) {
      TrimEndMembers(s[..|s| - 1], c);
    }
  }

  lemma TrimMembers(s: string, c: char)
    ensures c in Trim(s) ==> c in s
  {
    TrimStartMembers(s, c);
    TrimEndMembers(TrimStart(s), c);
  }

  lemma {:induction false} TrimStartSpaces(pad: string, s: string)
    requires AllSpaces(pad)
    ensures TrimStart(pad + s) == TrimStart(s)
  {
    if pad == [] {
      assert pad + s == s;
    } else {
      assert (pad + s)[1..] == pad[1..] + s;
      TrimStartSpaces(pad[1..], s);
    }
  }

  lemma {:induction false} TrimEndSpaces(s: string, pad: string)
    requires AllSpaces(pad)
    ensures TrimEnd(s + pad) == TrimEnd(s)
  {
    if pad == [] {
      assert s + pad == s;
    } else {
      assert (s + pad)[..|s + pad| - 1] == s + pad[..|pad| - 1];
      TrimEndSpaces(s, pad[..|pad| - 1]);
    }
  }

  /** Trimming is unique: spaces, then a core that neither starts nor ends with
      one, then spaces. */
  lemma TrimIs(pad: string, core: string, tail: string)
    requires AllSpaces(pad) && AllSpaces(tail)
    requires core != [] ==> !IsSpace(core[0]) && !IsSpace(core[|core| - 1])
    ensures Trim(pad + core + tail) == core
  {
    assert pad + core + tail == pad + (core + tail);
    TrimStartSpaces(pad, core + tail);
    if core == [] {
      assert core + tail == tail;
      AllSpacesTrim(tail);
    } else {
      assert TrimStart(core + tail) == core + tail;
      TrimEndSpaces(core, tail);
    }
  }

  lemma {:induction false} AllSpacesTrim(s: string)
    requires AllSpaces(s)
    ensures TrimStart(s) == [] && Trim(s) == []
  {
    if s != [] { AllSpacesTrim(s[1..]); }
  }

  /** Every string is a trimmed core between two paddings. */
  lemma TrimParts(s: string) returns (pad: string, tail: string)
    ensures AllSpaces(pad) && AllSpaces(tail) && s == pad + Trim(s) + tail
    ensures Trim(s) != [] ==> !IsSpace(Trim(s)[0]) && !IsSpace(Trim(s)[|Trim(s)| - 1])
  {
    TrimStartSuffix(s);
    TrimEndPrefix(TrimStart(s));
    pad := s[..|s| - |TrimStart(s)|];
    tail := TrimStart(s)[|Trim(s)|..];
  }

  /** Padding does not change what trimming returns. */
  lemma TrimIgnoresPadding(pad: string, s: string, tail: string)
    requires AllSpaces(pad) && AllSpaces(tail)
    ensures Trim(pad + s + tail) == Trim(s)
  {
    var p, t := TrimParts(s);
    assert pad + s + tail == (pad + p) + Trim(s) + (t + tail);
    TrimIs(pad + p, Trim(s), t + tail);
  }

  lemma TrimAfterTrimStart(s: string)
    ensures Trim(TrimStart(s)) == Trim(s)
  {
    TrimStartSuffix(s);
    var pad := s[..|s| - |TrimStart(s)|];
    assert s == pad + TrimStart(s) + [];
    TrimIgnoresPadding(pad, TrimStart(s), []);
  }

  lemma TrimAfterTrimEnd(s: string)
    ensures Trim(TrimEnd(s)) == Trim(s)
  {
    TrimEndPrefix(s);
    var tail := s[|TrimEnd(s)|..];
    assert s == [] + TrimEnd(s) + tail;
    TrimIgnoresPadding([], TrimEnd(s), tail);
  }

  // ---- lines ----------------------------------------------------------------------------

  lemma IndexOfConcat(a: string, c: char, b: string)
    requires c !in a
    ensures IndexOf(a + [c] + b, c) == |a| && IndexOf(a, c) == |a|
  {
    var s := a + [c] + b;
    assert s[|a|] == c;
    assert forall j :: 0 <= j < |a| ==> s[j] == a[j];
  }

  lemma SplitOnceConcat(a: string, c: char, b: string)
    requires c !in a
    ensures SplitOnce(a + [c] + b, c) == Some((a, b))
  {
    IndexOfConcat(a, c, b);
    var s := a + [c] + b;
    assert s[..|a|] == a && s[|a| + 1..] == b;
  }

  lemma {:induction false} UnlinesFront(line: string, rest: seq<string>)
    ensures Unlines([line] + rest) == line + "\n" + Unlines(rest)
  {
    var all := [line] + rest;
    if rest == [] {
      assert all[..0] == [];
      assert Unlines(all) == [] + line + "\n";
      assert line + "\n" + Unlines(rest) == line + "\n";
    } else {
      assert all[..|all| - 1] == [line] + rest[..|rest| - 1];
      UnlinesFront(line, rest[..|rest| - 1]);
      assert Unlines(all) == (line + "\n" + Unlines(rest[..|rest| - 1])) + rest[|rest| - 1] + "\n";
    }
  }

  function StripCrs(lines: seq<string>): seq<string> {
    seq(|lines|, i requires 0 <= i < |lines| => StripCr(lines[i]))
  }

  predicate NoNewlines(lines: seq<string>) { forall l :: l in lines ==> '\n' !in l }

  lemma LinesFront(l: string, rest: string)
    requires '\n' !in l
    ensures Lines(l + "\n" + rest) == [StripCr(l)] + Lines(rest)
  {
    var s := l + ['\n'] + rest;
    assert l + "\n" + rest == s;
    IndexOfConcat(l, '\n', rest);
    assert s[..|l|] == l && s[|l| + 1..] == rest;
  }

  lemma NoNewlinesIn(lines: seq<string>)
    requires NoNewlines(lines) && lines != []
    ensures '\n' !in lines[0] && NoNewlines(lines[1..])
  {
  }

  lemma StripCrsFront(l: string, rest: seq<string>)
    ensures StripCrs([l] + rest) == [StripCr(l)] + StripCrs(rest)
  {
    hide StripCr;
  }

  lemma LinesUnlinesFront(l: string, rest: seq<string>)
    requires '\n' !in l
    ensures Lines(Unlines([l] + rest)) == [StripCr(l)] + Lines(Unlines(rest))
  {
    UnlinesFront(l, rest);
    LinesFront(l, Unlines(rest));
    hide Lines, StripCr;
  }

  /** Writing lines out and splitting the text again returns them, but for a
      final `\r` on each. */
  lemma {:induction false} LinesOfUnlines(lines: seq<string>)
    requires NoNewlines(lines)
    ensures Lines(Unlines(lines)) == StripCrs(lines)
    decreases |lines|
  {
    if lines != [] {
      NoNewlinesIn(lines);
      hide NoNewlines, StripCr, StripCrs;
      var l, rest := lines[0], lines[1..];
      assert lines == [l] + rest;
      LinesUnlinesFront(l, rest);
      LinesOfUnlines(rest);
      StripCrsFront(l, rest);
    }
  }

  lemma {:induction false} LinesHaveNoNewlines(s: string)
    ensures NoNewlines(Lines(s))
    decreases |s|
  {
    if s != [] {
      var i := IndexOf(s, '\n');
      if i < |s| {
        LinesHaveNoNewlines(s[i + 1..]);
        assert '\n' !in s[..i];
      }
    }
  }

  lemma TrimStripCr(s: string)
    ensures Trim(StripCr(s)) == Trim(s)
  {
    if s != [] && s[|s| - 1] == '\r' {
      assert s == [] + StripCr(s) + "\r";
      TrimIgnoresPadding([], StripCr(s), "\r");
    }
  }
}
