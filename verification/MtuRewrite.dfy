/** `apply_mtu_override_to_conf_text`: a source-to-source rewrite of the MTU
    directive, and the proof that it means what it should. */
module MtuRewrite {
  import opened Prelude
  import opened Text
  import opened ConfParser
  import opened ConfSpelling

  // ---- the rewrite ---------------------------------------------------------------------

  predicate LooksLikeHeader(raw: string) { Trim(raw) != [] && Trim(raw)[0] == '[' }

  /** The only spelling of the interface header the rewriter recognises. */
  predicate IsPlainHeader(raw: string) { Lower(Trim(raw)) == "[interface]" }

  predicate IsMtuLine(raw: string) {
    var kv := SplitOnce(Trim(raw), '=');
    kv.Some? && Lower(Trim(kv.value.0)) == "mtu"
  }

  function MtuLine(mtu: nat): string { "MTU = " + PrintDec(mtu) }

  /** The first loop: the rewritten lines, whether the last header was a plain
      interface header, and whether a directive was replaced. */
  function Replace(lines: seq<string>, mtu: nat): (seq<string>, bool, bool) {
    if lines == [] then ([], false, false)
    else
      var (out, inInterface, found) := Replace(lines[..|lines| - 1], mtu);
      var raw := lines[|lines| - 1];
      if LooksLikeHeader(raw) then (out + [raw], IsPlainHeader(raw), found)
      else if inInterface && IsMtuLine(raw) then (out + [MtuLine(mtu)], inInterface, true)
      else (out + [raw], inInterface, found)
  }

  /** The second loop: insert after the first plain header. */
  function Insert(lines: seq<string>, mtu: nat): (seq<string>, bool) {
    if lines == [] then ([], false)
    else
      var (out, inserted) := Insert(lines[..|lines| - 1], mtu);
      var line := lines[|lines| - 1];
      if !inserted && IsPlainHeader(line) then (out + [line, MtuLine(mtu)], true) else (out + [line], inserted)
  }

  function Rewrite(text: string, mtu: nat): string {
    var (out, _, found) := Replace(Lines(text), mtu);
    if found then Unlines(out) else Unlines(Insert(Lines(Unlines(out)), mtu).0)
  }

  lemma UnlinesAppend(lines: seq<string>, line: string)
    ensures Unlines(lines + [line]) == Unlines(lines) + line + "\n"
  {
    assert (lines + [line])[..|lines|] == lines;
  }

  /** The rewriter as it runs, pushing onto an output string. */
  method ApplyMtuOverride(text: string, mtu: nat) returns (result: string)
    ensures result == Rewrite(text, mtu)
  {
    var lines := Lines(text);
    var out, inInterface, found := "", false, false;
    ghost var outLines: seq<string> := [];
    for i := 0 to |lines|
      invariant (outLines, inInterface, found) == Replace(lines[..i], mtu) && out == Unlines(outLines)
    {
      var raw := lines[i];
      assert lines[..i + 1][..i] == lines[..i];
      var line := raw;
      if LooksLikeHeader(raw) {
        inInterface := IsPlainHeader(raw);
      } else if inInterface && IsMtuLine(raw) {
        line := MtuLine(mtu);
        found := true;
      }
      out := out + line + "\n";
      UnlinesAppend(outLines, line);
      outLines := outLines + [line];
    }
    assert lines[..|lines|] == lines;
    if found {
      return out;
    }
    var again := Lines(out);
    var inserted := false;
    result := "";
    ghost var resultLines: seq<string> := [];
    for i := 0 to |again|
      invariant (resultLines, inserted) == Insert(again[..i], mtu) && result == Unlines(resultLines)
    {
      var line := again[i];
      assert again[..i + 1][..i] == again[..i];
      result := result + line + "\n";
      UnlinesAppend(resultLines, line);
      if !inserted && IsPlainHeader(line) {
        result := result + MtuLine(mtu) + "\n";
        UnlinesAppend(resultLines + [line], MtuLine(mtu));
        assert resultLines + [line] + [MtuLine(mtu)] == resultLines + [line, MtuLine(mtu)];
        resultLines := resultLines + [line, MtuLine(mtu)];
        inserted := true;
      } else {
        resultLines := resultLines + [line];
      }
    }
    assert again[..|again|] == again;
  }

  // ---- how the two readers of a line agree ---------------------------------------------------

  /** A line that is not all spaces: padding, its first character, the rest. */
  lemma SplitFirst(raw: string) returns (pad: string, c: char, rest: string)
    requires Trim(raw) != []
    ensures AllSpaces(pad) && !IsSpace(c) && raw == pad + [c] + rest
  {
    TrimStartSuffix(raw);
    pad := raw[..|raw| - |TrimStart(raw)|];
    c := TrimStart(raw)[0];
    rest := TrimStart(raw)[1..];
  }

  lemma TrimFirst(pad: string, c: char, rest: string)
    requires AllSpaces(pad) && !IsSpace(c)
    ensures Trim(pad + [c] + rest) == [c] + TrimEnd(rest)
  {
    AllSpacesTrim(pad);
    TrimKeepsMiddle(pad, c, rest);
    assert [] + [c] + TrimEnd(rest) == [c] + TrimEnd(rest);
  }

  lemma BeforeHashFirst(pad: string, c: char, rest: string)
    requires AllSpaces(pad)
    ensures BeforeHash(pad + [c] + rest) == if c == '#' then pad else pad + [c] + BeforeHash(rest)
  {
    assert forall i :: 0 <= i < |pad| ==> pad[i] != '#';
    assert pad + [c] + rest == pad + ([c] + rest);
    BeforeHashConcat(pad, [c] + rest);
    if c == '#' {
      assert BeforeHash([c] + rest) == [];
      assert pad + [] == pad;
    } else {
      BeforeHashConcat([c], rest);
      assert pad + ([c] + BeforeHash(rest)) == pad + [c] + BeforeHash(rest);
    }
  }

  /** Both see a header in the same lines. */
  lemma HeadersAgree(raw: string)
    ensures LooksLikeHeader(raw) <==> Classify(raw) == InterfaceHeader || Classify(raw) == PeerHeader || Classify(raw) == BadHeader
  {
    if Trim(raw) == [] {
      var pad, tail := TrimParts(raw);
      assert raw == pad + tail;
      assert forall i :: 0 <= i < |raw| ==> raw[i] != '#';
      assert BeforeHash(raw) == raw;
    } else {
      var pad, c, rest := SplitFirst(raw);
      TrimFirst(pad, c, rest);
      BeforeHashFirst(pad, c, rest);
      if c == '#' {
        AllSpacesTrim(pad);
      } else {
        TrimFirst(pad, c, BeforeHash(rest));
      }
    }
  }

  lemma {:induction false} StripSpacesKeeps(s: string)
    requires forall i :: 0 <= i < |s| ==> !IsSpace(s[i])
    ensures StripSpaces(s) == s
  {
    if s != [] { StripSpacesKeeps(s[1..]); }
  }

  lemma PlainHeaderLetters(line: string)
    requires Lower(line) == "[interface]"
    ensures |line| == 11 && line[0] == '[' && line[10] == ']' && Lower(line[1..10]) == "interface"
    ensures forall i :: 0 <= i < 11 ==> !IsSpace(line[i]) && line[i] != '#'
  {
    forall i | 0 <= i < 11
      ensures |line| == 11 && LowerChar(line[i]) == "[interface]"[i]
    {
      assert Lower(line)[i] == LowerChar(line[i]);
    }
    assert Lower(line[1..10]) == Lower(line)[1..10] == "interface";
  }

  lemma PlainHeaderName(line: string)
    requires Lower(line) == "[interface]"
    ensures HeaderName(line) == Some("interface")
  {
    hide StripSpaces;
    PlainHeaderLetters(line);
    StripSpacesKeeps(line);
  }

  lemma PlainHeaderIsHeader(raw: string)
    requires IsPlainHeader(raw)
    ensures Classify(raw) == InterfaceHeader && LooksLikeHeader(raw)
  {
    hide Trim, IsSpace, Lower, HeaderName, KeyNamed, SplitOnce;
    var line := Trim(raw);
    PlainHeaderLetters(line);
    PlainHeaderName(line);
    var pad, tail := TrimParts(raw);
    NoHash(pad, line, tail);
    assert BeforeHash(raw) == raw;
  }

  lemma NoHash(pad: string, core: string, tail: string)
    requires AllSpaces(pad) && AllSpaces(tail) && '#' !in core
    ensures '#' !in pad + core + tail
  {
  }

  lemma OnlyMtuIsMtu(name: string)
    ensures KeyNamed(name) == Mtu <==> name == "mtu"
  {
  }

  lemma SplitTrimmedEntry(k: string, v: string)
    requires '=' !in k
    ensures SplitOnce(Trim(k + ['='] + v), '=') == Some((TrimStart(k), TrimEnd(v)))
  {
    TrimKeepsMiddle(k, '=', v);
    TrimStartMembers(k, '=');
    SplitOnceConcat(TrimStart(k), '=', TrimEnd(v));
  }

  lemma NotAnEntry(raw: string)
    requires '=' !in raw
    ensures SplitOnce(Trim(raw), '=') == None
  {
    hide Trim;
    TrimMembers(raw, '=');
  }

  lemma SplitTrimmed(raw: string)
    ensures var i := IndexOf(raw, '=');
            SplitOnce(Trim(raw), '=') == if i == |raw| then None else Some((TrimStart(raw[..i]), TrimEnd(raw[i + 1..])))
  {
    hide Trim, TrimStart, TrimEnd, SplitOnce, IndexOf;
    var i := IndexOf(raw, '=');
    if i < |raw| {
      var k, v := raw[..i], raw[i + 1..];
      assert raw == k + ['='] + v;
      SplitTrimmedEntry(k, v);
    } else {
      NotAnEntry(raw);
    }
  }

  /** The key part of a line, spelled out. */
  lemma KeyPart(raw: string)
    ensures var i := IndexOf(raw, '=');
            IsMtuLine(raw) <==> i < |raw| && Lower(Trim(raw[..i])) == "mtu"
  {
    SplitTrimmed(raw);
    TrimAfterTrimStart(raw[..IndexOf(raw, '=')]);
  }

  /** What the parser makes of an entry that stands before any comment. */
  lemma EntryBeforeComment(raw: string)
    requires '=' in BeforeHash(raw) && !LooksLikeHeader(raw)
    ensures var b := BeforeHash(raw);
            var j := IndexOf(b, '=');
            Classify(raw) == Entry(KeyNamed(Lower(Trim(b[..j]))), Trim(b[j + 1..]))
  {
    hide Trim, TrimStart, TrimEnd, BeforeHash, LooksLikeHeader, KeyNamed, SplitOnce, Lower, HeaderName;
    HeadersAgree(raw);
    var b := BeforeHash(raw);
    var j := IndexOf(b, '=');
    SplitTrimmed(b);
    assert b == b[..j] + ['='] + b[j + 1..];
    TrimKeepsMiddle(b[..j], '=', b[j + 1..]);
    TrimAfterTrimStart(b[..j]);
    TrimAfterTrimEnd(b[j + 1..]);
    assert Trim(b) != [];
  }

  /** With no `=` before the comment the parser skips the line, and the rewriter
      finds the hash in the key. */
  lemma NoEntryBeforeComment(raw: string)
    requires '=' !in BeforeHash(raw) && !LooksLikeHeader(raw) && Classify(raw) != Malformed
    ensures Classify(raw) == Blank && !IsMtuLine(raw)
  {
    var b := BeforeHash(raw);
    HeadersAgree(raw);
    NotAnEntry(b);
    KeyPart(raw);
    hide Trim, Lower, IsMtuLine, LooksLikeHeader, KeyNamed;
    var i, h := IndexOf(raw, '='), IndexOf(raw, '#');
    if i < |raw| {
      assert forall x :: 0 <= x < h ==> raw[x] == b[x] && b[x] != '=';
      assert raw[..i][h] == '#';
      HashInKey(raw[..i]);
    }
  }

  /** On a line the parser accepts and that is no header, both see an MTU
      directive in the same lines. */
  lemma MtuLinesAgree(raw: string)
    requires !LooksLikeHeader(raw) && Classify(raw) != Malformed
    ensures IsMtuLine(raw) <==> Classify(raw).Entry? && Classify(raw).key == Mtu
  {
    hide Trim, Lower, LooksLikeHeader, KeyNamed, Classify, IsMtuLine;
    KeyPart(raw);
    var b := BeforeHash(raw);
    var i, j := IndexOf(raw, '='), IndexOf(b, '=');
    if j < |b| {
      EntryBeforeComment(raw);
      assert raw[..i] == b[..j];
      OnlyMtuIsMtu(Lower(Trim(b[..j])));
    } else {
      NoEntryBeforeComment(raw);
    }
  }

  lemma HashInKey(k: string)
    requires '#' in k
    ensures Lower(Trim(k)) != "mtu"
  {
    var pad, tail := TrimParts(k);
    assert '#' in Trim(k);
    var i :| 0 <= i < |Trim(k)| && Trim(k)[i] == '#';
    assert Lower(Trim(k))[i] == '#';
    assert forall j :: 0 <= j < 3 ==> "mtu"[j] != '#';
  }
}
