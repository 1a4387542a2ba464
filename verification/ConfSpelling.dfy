/** What does not matter in a configuration text: comments, blank lines,
    spacing and the case of keys. */
module ConfSpelling {
  import opened Prelude
  import opened Text
  import opened ConfParser

  // ---- one line --------------------------------------------------------------------

  lemma BeforeHashConcat(a: string, b: string)
    requires '#' !in a
    ensures BeforeHash(a + b) == a + BeforeHash(b)
  {
    var s := a + b;
    assert forall j :: 0 <= j < |a| ==> s[j] == a[j];
    assert forall j :: |a| <= j < |s| ==> s[j] == b[j - |a|];
    var i, k := IndexOf(s, '#'), IndexOf(b, '#');
    assert |a| <= i;
    if k < |b| { assert s[|a| + k] == '#'; }
    assert i == |a| + k;
  }

  /** A comment says nothing. */
  lemma CommentsDoNotMatter(line: string, comment: string)
    ensures Classify(line + "#" + comment) == Classify(line)
  {
    var i := IndexOf(line, '#');
    if i == |line| {
      assert line + "#" + comment == line + ("#" + comment);
      BeforeHashConcat(line, "#" + comment);
      assert BeforeHash("#" + comment) == [];
      assert line + [] == line && BeforeHash(line) == line;
    } else {
      var s := line + "#" + comment;
      assert s == line[..i] + (line[i..] + "#" + comment);
      assert line == line[..i] + line[i..];
      BeforeHashConcat(line[..i], line[i..] + "#" + comment);
      BeforeHashConcat(line[..i], line[i..]);
      assert (line[i..] + "#" + comment)[0] == '#' && line[i..][0] == '#';
    }
  }

  /** Neither do spaces around a line. */
  lemma SpacingDoesNotMatter(pad: string, line: string, tail: string)
    requires AllSpaces(pad) && AllSpaces(tail)
    ensures Classify(pad + line + tail) == Classify(line)
  {
    assert forall i :: 0 <= i < |pad| ==> pad[i] != '#';
    assert forall i :: 0 <= i < |tail| ==> tail[i] != '#';
    assert pad + line + tail == pad + (line + tail);
    BeforeHashConcat(pad, line + tail);
    var i := IndexOf(line, '#');
    var core := BeforeHash(line);
    if i == |line| {
      BeforeHashConcat(line, tail);
      assert BeforeHash(tail) == tail && core == line;
      assert BeforeHash(pad + line + tail) == pad + core + tail;
      TrimIgnoresPadding(pad, core, tail);
    } else {
      assert line + tail == core + (line[i..] + tail);
      BeforeHashConcat(core, line[i..] + tail);
      assert (line[i..] + tail)[0] == '#';
      assert BeforeHash(pad + line + tail) == pad + core + [];
      TrimIgnoresPadding(pad, core, []);
    }
  }

  /** What a `key = value` line says: the key in lower case and the value, both
      trimmed. */
  lemma EntryLine(k: string, v: string)
    requires '#' !in k && '#' !in v && '=' !in k
    requires Trim(k) == [] || Trim(k)[0] != '['
    ensures Classify(k + "=" + v) == Entry(KeyNamed(Lower(Trim(k))), Trim(v))
  {
    var s := k + ['='] + v;
    assert k + "=" + v == s;
    assert BeforeHash(s) == s;
    TrimKeepsMiddle(k, '=', v);
    var line := TrimStart(k) + ['='] + TrimEnd(v);
    assert Trim(s) == line;
    TrimStartSuffix(k);
    TrimEndPrefix(v);
    assert '=' !in TrimStart(k);
    if TrimStart(k) != [] {
      assert line[0] == TrimStart(k)[0];
      TrimOfTrimmedStart(k);
    } else {
      assert line[0] == '=';
    }
    SplitOnceConcat(TrimStart(k), '=', TrimEnd(v));
    TrimAfterTrimStart(k);
    TrimAfterTrimEnd(v);
  }

  lemma TrimOfTrimmedStart(k: string)
    requires TrimStart(k) != []
    ensures Trim(k) != [] && Trim(k)[0] == TrimStart(k)[0]
  {
    TrimStartSuffix(k);
    var t := TrimStart(k);
    TrimEndKeeps([], t[0], t[1..]);
    assert t == [] + [t[0]] + t[1..];
  }

  /** Spaces around `=` and the case of the key do not matter. */
  lemma KeySpellingDoesNotMatter(k: string, k': string, v: string, v': string)
    requires '#' !in k + v + k' + v' && '=' !in k + k'
    requires (Trim(k) == [] || Trim(k)[0] != '[') && (Trim(k') == [] || Trim(k')[0] != '[')
    requires Lower(Trim(k)) == Lower(Trim(k')) && Trim(v) == Trim(v')
    ensures Classify(k + "=" + v) == Classify(k' + "=" + v')
  {
    EntryLine(k, v);
    EntryLine(k', v');
  }

  // ---- whole texts --------------------------------------------------------------------

  function WithoutBlanks(items: seq<Item>): seq<Item> {
    if items == [] then []
    else WithoutBlanks(items[..|items| - 1]) + if items[|items| - 1] == Blank then [] else [items[|items| - 1]]
  }

  lemma {:induction false} ScanSkipsBlanks(o: Oracle, items: seq<Item>)
    ensures Scan(o, WithoutBlanks(items)) == Scan(o, items)
  {
    if items != [] {
      var front := items[..|items| - 1];
      ScanSkipsBlanks(o, front);
      if items[|items| - 1] != Blank {
        assert WithoutBlanks(items)[..|WithoutBlanks(items)| - 1] == WithoutBlanks(front);
      } else {
        assert WithoutBlanks(items) == WithoutBlanks(front);
      }
    }
  }

  /** Two texts whose lines say the same, blank lines aside, parse alike. */
  lemma SameItemsSameConfig(o: Oracle, text: string, text': string)
    requires WithoutBlanks(Items(Lines(text))) == WithoutBlanks(Items(Lines(text')))
    ensures Parse(o, text) == Parse(o, text')
  {
    ScanSkipsBlanks(o, Items(Lines(text)));
    ScanSkipsBlanks(o, Items(Lines(text')));
  }
}
