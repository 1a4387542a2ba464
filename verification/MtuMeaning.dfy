/** The MTU rewrite preserves meaning. */
module MtuMeaning {
  import opened Prelude
  import opened Text
  import opened ConfParser
  import opened ConfSpelling
  import opened MtuRewrite

  function SetMtu(acc: Acc, v: Option<nat>): Acc { acc.(iface := acc.iface.(mtu := v)) }

  function SetMtuOpt(acc: Option<Acc>, v: Option<nat>): Option<Acc> {
    if acc.None? then None else Some(SetMtu(acc.value, v))
  }

  predicate SetsMtu(acc: Acc, item: Item) {
    acc.section == InInterface && item.Entry? && item.key == Mtu && item.value != []
  }

  /** A step that sets no MTU does not look at it. */
  lemma StepIgnoresMtu(o: Oracle, acc: Acc, item: Item, v: Option<nat>)
    requires !SetsMtu(acc, item)
    ensures Step(o, SetMtu(acc, v), item) == SetMtuOpt(Step(o, acc, item), v)
    ensures Step(o, acc, item).Some? ==> Step(o, acc, item).value.iface.mtu == acc.iface.mtu
  {
    assert EndSection(SetMtu(acc, v)) == SetMtuOpt(EndSection(acc), v);
  }

  lemma StepSetsMtu(o: Oracle, acc: Acc, item: Item, v: Option<nat>)
    requires SetsMtu(acc, item)
    ensures Step(o, SetMtu(acc, v), item) ==
            if ParseMtu(item.value).None? then None else Some(SetMtu(acc, ParseMtu(item.value)))
  {
  }

  lemma MtuKeyword()
    ensures KeyNamed(Lower(Trim("MTU "))) == Mtu && Trim("MTU ") == "MTU"
  {
    assert "MTU " == [] + "MTU" + " ";
    TrimIs([], "MTU", " ");
    assert Lower("MTU") == "mtu";
    OnlyMtuIsMtu("mtu");
  }

  lemma MtuLineSays(m: nat)
    ensures Classify(MtuLine(m)) == Entry(Mtu, PrintDec(m)) && '\n' !in MtuLine(m)
    ensures PrintDec(m) != []
  {
    hide Classify, DecValue, Trim;
    var d := PrintDec(m);
    PrintDecParses(m);
    assert forall i :: 0 <= i < |d| ==> IsDigit(d[i]);
    var v := [' '] + d;
    assert "MTU = " + d == ("MTU " + ['=']) + v;
    assert v == [' '] + d + [];
    TrimIs([' '], d, []);
    MtuKeyword();
    assert '#' !in d && '#' !in v && '#' !in "MTU " && '=' !in "MTU ";
    EntryLine("MTU ", v);
  }

  // ---- lines and items --------------------------------------------------------------------

  lemma ItemsAppend(lines: seq<string>, line: string)
    ensures Items(lines + [line]) == Items(lines) + [Classify(line)]
  {
  }

  lemma ScanAppend(o: Oracle, items: seq<Item>, item: Item)
    ensures Scan(o, items + [item]) == if Scan(o, items).None? then None else Step(o, Scan(o, items).value, item)
  {
    assert (items + [item])[..|items|] == items;
  }

  lemma ScanLines(o: Oracle, lines: seq<string>, line: string)
    ensures Scan(o, Items(lines + [line])) ==
            if Scan(o, Items(lines)).None? then None else Step(o, Scan(o, Items(lines)).value, Classify(line))
  {
    ItemsAppend(lines, line);
    ScanAppend(o, Items(lines), Classify(line));
  }

  lemma StripCrSaysTheSame(line: string)
    ensures Classify(StripCr(line)) == Classify(line)
  {
    if line != [] && line[|line| - 1] == '\r' {
      assert line == [] + StripCr(line) + "\r";
      SpacingDoesNotMatter([], StripCr(line), "\r");
    }
  }

  lemma StripCrsSayTheSame(lines: seq<string>)
    ensures Items(StripCrs(lines)) == Items(lines)
  {
    forall i | 0 <= i < |lines|
      ensures Classify(StripCrs(lines)[i]) == Classify(lines[i])
    {
      StripCrSaysTheSame(lines[i]);
    }
  }

  /** Parsing written-out lines is parsing those lines. */
  lemma ParseUnlines(o: Oracle, lines: seq<string>)
    requires NoNewlines(lines)
    ensures Parse(o, Unlines(lines)) == ParseItems(o, Items(lines))
  {
    LinesOfUnlines(lines);
    StripCrsSayTheSame(lines);
  }

  /** Every interface header is spelled the one way the rewriter knows. */
  predicate AllPlain(lines: seq<string>) {
    forall i :: 0 <= i < |lines| && Classify(lines[i]) == InterfaceHeader ==> IsPlainHeader(lines[i])
  }

  predicate NonePlain(lines: seq<string>) {
    forall i :: 0 <= i < |lines| ==> !IsPlainHeader(lines[i])
  }

  // ---- the last word ---------------------------------------------------------------------------

  /** Which line decides the MTU of the rewritten text: one the rewriter writes,
      or a directive it does not recognise as its own. */
  datatype Word = Nothing | Ours | Foreign(value: Option<nat>)

  function Spoken(w: Word, m: nat): Option<nat> {
    match w
    case Nothing => None
    case Ours => Some(m)
    case Foreign(v) => v
  }

  /** The section the parser is in after some lines it accepts. */
  function Opens(lines: seq<string>): Section {
    if lines == [] then NoSection
    else
      match Classify(lines[|lines| - 1])
      case InterfaceHeader => InInterface
      case PeerHeader => InPeer
      case _ => Opens(lines[..|lines| - 1])
  }

  /** The rewriter's own flag: the last header was a plain one. */
  predicate PlainOpen(lines: seq<string>) {
    lines != [] &&
    (var raw := lines[|lines| - 1];
     if LooksLikeHeader(raw) then IsPlainHeader(raw) else PlainOpen(lines[..|lines| - 1]))
  }

  /** A directive the rewriter replaces. */
  predicate Replaces(front: seq<string>, raw: string) { !LooksLikeHeader(raw) && PlainOpen(front) && IsMtuLine(raw) }

  /** A directive that sets the MTU for the parser but not for the rewriter. */
  predicate SetsForeign(front: seq<string>, raw: string) {
    var item := Classify(raw);
    !LooksLikeHeader(raw) && !PlainOpen(front) && Opens(front) == InInterface && item.Entry? && item.key == Mtu && item.value != []
  }

  function ForeignWord(raw: string): Word {
    var item := Classify(raw);
    if item.Entry? then Foreign(ParseMtu(item.value)) else Nothing
  }

  predicate FirstPlain(front: seq<string>, raw: string) { IsPlainHeader(raw) && NonePlain(front) }

  /** The last of these lines: a replaced directive, the first plain header,
      after which a directive is inserted if none was replaced, or a foreign
      directive. */
  function LastWord(lines: seq<string>): Word {
    if lines == [] then Nothing
    else
      var front, raw := lines[..|lines| - 1], lines[|lines| - 1];
      if Replaces(front, raw) || FirstPlain(front, raw) then Ours
      else if SetsForeign(front, raw) then ForeignWord(raw)
      else LastWord(front)
  }

  /** The last word of the replace loop alone, and of the insert loop alone. */
  function ReplaceWord(lines: seq<string>): Word {
    if lines == [] then Nothing
    else
      var front, raw := lines[..|lines| - 1], lines[|lines| - 1];
      if Replaces(front, raw) then Ours
      else if SetsForeign(front, raw) then ForeignWord(raw)
      else ReplaceWord(front)
  }

  function InsertWord(lines: seq<string>): Word {
    if lines == [] then Nothing
    else
      var front, raw := lines[..|lines| - 1], lines[|lines| - 1];
      if FirstPlain(front, raw) then Ours
      else if SetsForeign(front, raw) then ForeignWord(raw)
      else InsertWord(front)
  }

  predicate AnyReplaced(lines: seq<string>) {
    lines != [] && (Replaces(lines[..|lines| - 1], lines[|lines| - 1]) || AnyReplaced(lines[..|lines| - 1]))
  }

  lemma {:induction false} WordsAgree(lines: seq<string>)
    ensures LastWord(lines) == if AnyReplaced(lines) then ReplaceWord(lines) else InsertWord(lines)
  {
    if lines != [] {
      hide Replaces, SetsForeign;
      var front, raw := lines[..|lines| - 1], lines[|lines| - 1];
      WordsAgree(front);
      if AnyReplaced(front) { ReplacedHasPlain(front); }
    }
  }

  lemma {:induction false} ReplacedHasPlain(lines: seq<string>)
    requires AnyReplaced(lines) || PlainOpen(lines)
    ensures !NonePlain(lines)
  {
    var front, raw := lines[..|lines| - 1], lines[|lines| - 1];
    if LooksLikeHeader(raw) && IsPlainHeader(raw) {
      assert !NonePlain(lines);
    } else {
      ReplacedHasPlain(front);
      var i :| 0 <= i < |front| && IsPlainHeader(front[i]);
      assert lines[i] == front[i];
    }
  }

  // ---- one line ------------------------------------------------------------------------------------

  /** The parser's section and its MTU along accepted lines. */
  lemma StepSection(o: Oracle, acc: Acc, raw: string)
    requires Step(o, acc, Classify(raw)).Some?
    ensures var acc' := Step(o, acc, Classify(raw)).value;
            acc'.section == match Classify(raw)
                            case InterfaceHeader => InInterface
                            case PeerHeader => InPeer
                            case _ => acc.section
  {
    hide Classify;
  }

  lemma {:induction false} ScanOpens(o: Oracle, lines: seq<string>)
    requires Scan(o, Items(lines)).Some?
    ensures Scan(o, Items(lines)).value.section == Opens(lines)
  {
    hide Classify, Step, Items;
    if lines == [] {
      NoItems();
    } else {
      var front, raw := lines[..|lines| - 1], lines[|lines| - 1];
      assert lines == front + [raw];
      ScanLines(o, front, raw);
      ScanOpens(o, front);
      StepSection(o, Scan(o, Items(front)).value, raw);
    }
  }

  lemma PlainOpensInterface(lines: seq<string>)
    requires PlainOpen(lines)
    ensures Opens(lines) == InInterface
  {
    var front, raw := lines[..|lines| - 1], lines[|lines| - 1];
    HeadersAgree(raw);
    if LooksLikeHeader(raw) { PlainHeaderIsHeader(raw); } else { PlainOpensInterface(front); }
  }

  /** A line both readers copy and that is no foreign directive leaves the MTU alone. */
  lemma QuietLine(o: Oracle, front: seq<string>, acc: Acc, raw: string, v: Option<nat>)
    requires acc.section == Opens(front) && Step(o, acc, Classify(raw)).Some?
    requires !Replaces(front, raw) && !SetsForeign(front, raw)
    ensures Step(o, SetMtu(acc, v), Classify(raw)) == Some(SetMtu(Step(o, acc, Classify(raw)).value, v))
  {
    HeadersAgree(raw);
    if !LooksLikeHeader(raw) { MtuLinesAgree(raw); }
    assert !SetsMtu(acc, Classify(raw));
    hide Classify, IsMtuLine, LooksLikeHeader, ParseMtu;
    StepIgnoresMtu(o, acc, Classify(raw), v);
  }

  lemma ForeignLine(o: Oracle, front: seq<string>, acc: Acc, raw: string, v: Option<nat>)
    requires acc.section == Opens(front) && Step(o, acc, Classify(raw)).Some? && SetsForeign(front, raw)
    ensures var acc' := Step(o, acc, Classify(raw)).value;
            Step(o, SetMtu(acc, v), Classify(raw)) == Some(SetMtu(acc', Spoken(ForeignWord(raw), 0)))
            && ForeignWord(raw).Foreign?
  {
    hide Classify, ParseMtu, LooksLikeHeader, PlainOpen;
    StepSetsMtu(o, acc, Classify(raw), v);
    StepSetsMtu(o, acc, Classify(raw), acc.iface.mtu);
  }

  lemma ReplacedLine(o: Oracle, front: seq<string>, acc: Acc, raw: string, v: Option<nat>, m: nat)
    requires acc.section == Opens(front) && Step(o, acc, Classify(raw)).Some? && Replaces(front, raw) && MIN_MTU <= m < 0x10000
    ensures Step(o, SetMtu(acc, v), Classify(MtuLine(m))) == Some(SetMtu(Step(o, acc, Classify(raw)).value, Some(m)))
  {
    PlainOpensInterface(front);
    HeadersAgree(raw);
    MtuLinesAgree(raw);
    hide Classify, IsMtuLine, LooksLikeHeader, MtuLine, PrintDec, ParseMtu, PlainOpen;
    MtuLineSets(o, SetMtu(acc, v), m);
    var item := Classify(raw);
    if SetsMtu(acc, item) { StepSetsMtu(o, acc, item, acc.iface.mtu); }
  }

  lemma MtuLineSets(o: Oracle, acc: Acc, m: nat)
    requires acc.section == InInterface && MIN_MTU <= m < 0x10000
    ensures Step(o, acc, Classify(MtuLine(m))) == Some(SetMtu(acc, Some(m)))
  {
    hide Classify, MtuLine;
    MtuLineSays(m);
    PrintedU16Parses(m);
    StepSetsMtu(o, acc, Entry(Mtu, PrintDec(m)), acc.iface.mtu);
  }

  lemma NoItems()
    ensures Items([]) == []
  {
  }

  // ---- the replace loop ----------------------------------------------------------------------

  /** What the loop's flags mean. */
  lemma {:induction false} ReplaceFlags(lines: seq<string>, m: nat)
    ensures var (out, inInterface, found) := Replace(lines, m);
            inInterface == PlainOpen(lines) && found == AnyReplaced(lines) && (!found ==> out == lines)
  {
    hide LooksLikeHeader, IsPlainHeader, IsMtuLine, MtuLine;
    if lines != [] {
      ReplaceFlags(lines[..|lines| - 1], m);
      assert lines == lines[..|lines| - 1] + [lines[|lines| - 1]];
    }
  }

  /** After every line the rewritten text has been scanned to the same state,
      but for the MTU the last word so far gives. */
  lemma {:induction false} ReplaceScans(o: Oracle, lines: seq<string>, m: nat)
    requires Scan(o, Items(lines)).Some? && MIN_MTU <= m < 0x10000
    ensures Scan(o, Items(Replace(lines, m).0)) == Some(SetMtu(Scan(o, Items(lines)).value, Spoken(ReplaceWord(lines), m)))
  {
    hide Classify, IsMtuLine, LooksLikeHeader, IsPlainHeader, MtuLine, Step, Items, PlainOpen, Opens, ForeignWord;
    if lines == [] {
      NoItems();
    } else {
      var front, raw := lines[..|lines| - 1], lines[|lines| - 1];
      assert lines == front + [raw];
      ScanLines(o, front, raw);
      ReplaceScans(o, front, m);
      ReplaceFlags(front, m);
      ScanOpens(o, front);
      var out, acc := Replace(front, m).0, Scan(o, Items(front)).value;
      var v := Spoken(ReplaceWord(front), m);
      ScanLines(o, out, raw);
      ScanLines(o, out, MtuLine(m));
      if Replaces(front, raw) {
        ReplacedLine(o, front, acc, raw, v, m);
      } else if SetsForeign(front, raw) {
        ForeignLine(o, front, acc, raw, v);
      } else {
        QuietLine(o, front, acc, raw, v);
      }
    }
  }

  lemma {:induction false} ReplaceNoNewlines(lines: seq<string>, m: nat)
    requires NoNewlines(lines)
    ensures NoNewlines(Replace(lines, m).0)
  {
    if lines != [] {
      ReplaceNoNewlines(lines[..|lines| - 1], m);
      MtuLineSays(m);
    }
  }

  // ---- the insert loop ------------------------------------------------------------------------

  lemma {:induction false} InsertFlag(lines: seq<string>, m: nat)
    ensures Insert(lines, m).1 == !NonePlain(lines)
  {
    hide IsPlainHeader, MtuLine;
    if lines != [] {
      var front, line := lines[..|lines| - 1], lines[|lines| - 1];
      assert lines == front + [line];
      InsertFlag(front, m);
      assert NonePlain(lines) <==> NonePlain(front) && !IsPlainHeader(line);
    }
  }

  lemma PlainHeaderOpens(o: Oracle, acc: Acc, line: string)
    requires IsPlainHeader(line) && Step(o, acc, Classify(line)).Some?
    ensures Step(o, acc, Classify(line)).value.section == InInterface && LooksLikeHeader(line)
  {
    hide IsPlainHeader;
    PlainHeaderIsHeader(line);
  }

  lemma {:induction false} InsertScans(o: Oracle, lines: seq<string>, m: nat)
    requires Scan(o, Items(lines)).Some? && MIN_MTU <= m < 0x10000 && !AnyReplaced(lines)
    ensures Scan(o, Items(Insert(lines, m).0)) == Some(SetMtu(Scan(o, Items(lines)).value, Spoken(InsertWord(lines), m)))
  {
    hide Classify, LooksLikeHeader, IsPlainHeader, MtuLine, Step, Items, PlainOpen, Opens, ForeignWord, NonePlain;
    if lines == [] {
      NoItems();
    } else {
      var front, line := lines[..|lines| - 1], lines[|lines| - 1];
      assert lines == front + [line];
      ScanLines(o, front, line);
      InsertScans(o, front, m);
      InsertFlag(front, m);
      ScanOpens(o, front);
      var out, acc := Insert(front, m).0, Scan(o, Items(front)).value;
      var v := Spoken(InsertWord(front), m);
      ScanLines(o, out, line);
      if FirstPlain(front, line) {
        var acc' := Scan(o, Items(lines)).value;
        PlainHeaderOpens(o, acc, line);
        QuietLine(o, front, acc, line, v);
        MtuLineSets(o, SetMtu(acc', v), m);
        assert out + [line, MtuLine(m)] == (out + [line]) + [MtuLine(m)];
        ScanLines(o, out + [line], MtuLine(m));
      } else if SetsForeign(front, line) {
        ForeignLine(o, front, acc, line, v);
      } else {
        QuietLine(o, front, acc, line, v);
      }
    }
  }

  lemma {:induction false} InsertNoNewlines(lines: seq<string>, m: nat)
    requires NoNewlines(lines)
    ensures NoNewlines(Insert(lines, m).0)
  {
    if lines != [] {
      InsertNoNewlines(lines[..|lines| - 1], m);
      MtuLineSays(m);
    }
  }

  lemma FinishSetMtu(acc: Acc, v: Option<nat>)
    ensures Finish(SetMtu(acc, v)) == if Finish(acc).None? then None else Some(Finish(acc).value.(mtu := v))
  {
    assert EndSection(SetMtu(acc, v)) == SetMtuOpt(EndSection(acc), v);
  }

  /** Stripping a final carriage return changes none of the readings of a line. */
  predicate ReadAlike(lines: seq<string>, lines': seq<string>) {
    |lines| == |lines'| && forall i :: 0 <= i < |lines| ==> Trim(lines[i]) == Trim(lines'[i]) && Classify(lines[i]) == Classify(lines'[i])
  }

  lemma StripCrsReadAlike(lines: seq<string>)
    ensures ReadAlike(lines, StripCrs(lines))
  {
    forall i | 0 <= i < |lines|
      ensures Trim(StripCrs(lines)[i]) == Trim(lines[i]) && Classify(StripCrs(lines)[i]) == Classify(lines[i])
    {
      TrimStripCr(lines[i]);
      StripCrSaysTheSame(lines[i]);
    }
  }

  lemma {:induction false} AlikeSameWords(lines: seq<string>, lines': seq<string>)
    requires ReadAlike(lines, lines')
    ensures InsertWord(lines) == InsertWord(lines') && AnyReplaced(lines) == AnyReplaced(lines')
    ensures PlainOpen(lines) == PlainOpen(lines') && Opens(lines) == Opens(lines') && NonePlain(lines) == NonePlain(lines')
  {
    hide Classify, Trim;
    if lines != [] {
      AlikeSameWords(lines[..|lines| - 1], lines'[..|lines| - 1]);
      assert forall i :: 0 <= i < |lines| ==> IsPlainHeader(lines[i]) == IsPlainHeader(lines'[i]);
    }
  }

  /** For every text that parses the rewritten text parses too, and to the same
      configuration but for the MTU, which the last word decides. */
  lemma RewriteSpeaksLastWord(o: Oracle, text: string, m: nat)
    requires Parse(o, text).Some? && MIN_MTU <= m < 0x10000
    ensures Parse(o, Rewrite(text, m)) == Some(Parse(o, text).value.(mtu := Spoken(LastWord(Lines(text)), m)))
  {
    hide Classify, Items, Step, Unlines, LastWord, ReplaceWord, InsertWord, AnyReplaced, PlainOpen, Insert, Replace, Finish, NoNewlines;
    var lines := Lines(text);
    var acc := Scan(o, Items(lines)).value;
    LinesHaveNoNewlines(text);
    ReplaceScans(o, lines, m);
    ReplaceFlags(lines, m);
    ReplaceNoNewlines(lines, m);
    WordsAgree(lines);
    var (out, _, found) := Replace(lines, m);
    FinishSetMtu(acc, Spoken(LastWord(lines), m));
    if found {
      ParseUnlines(o, out);
    } else {
      var again := Lines(Unlines(out));
      LinesOfUnlines(lines);
      StripCrsSayTheSame(lines);
      StripCrsReadAlike(lines);
      AlikeSameWords(lines, again);
      LinesHaveNoNewlines(Unlines(out));
      InsertScans(o, again, m);
      InsertNoNewlines(again, m);
      ParseUnlines(o, Insert(again, m).0);
    }
  }

  /** The exact condition: the rewrite means "set the MTU" if and only if the
      last word is the rewriter's own, or a foreign directive that happens to ask
      for the same MTU. */
  lemma RewriteCommutesIff(o: Oracle, text: string, m: nat)
    requires Parse(o, text).Some? && MIN_MTU <= m < 0x10000
    ensures Parse(o, Rewrite(text, m)) == Some(Parse(o, text).value.(mtu := Some(m))) <==>
            LastWord(Lines(text)) == Ours || LastWord(Lines(text)) == Foreign(Some(m))
  {
    hide Parse, Rewrite, LastWord;
    RewriteSpeaksLastWord(o, text, m);
  }

  // ---- plain and foreign headers ------------------------------------------------------------------

  /** With every interface header plain the last word is the rewriter's as soon
      as there is an interface section. */
  lemma {:induction false} PlainTextsSayOurs(o: Oracle, lines: seq<string>)
    requires Scan(o, Items(lines)).Some? && AllPlain(lines)
    ensures LastWord(lines) == Ours || (LastWord(lines) == Nothing && NonePlain(lines) && Scan(o, Items(lines)).value.iface == EMPTY_IFACE)
    ensures PlainOpen(lines) <==> Opens(lines) == InInterface
  {
    hide Classify, LooksLikeHeader, IsPlainHeader, IsMtuLine, Step, Items, InterfaceEntry, PeerEntry;
    if lines == [] {
      NoItems();
    } else {
      var front, raw := lines[..|lines| - 1], lines[|lines| - 1];
      assert lines == front + [raw];
      ScanLines(o, front, raw);
      assert AllPlain(front) by { assert forall i :: 0 <= i < |front| ==> lines[i] == front[i]; }
      PlainTextsSayOurs(o, front);
      ScanOpens(o, front);
      HeadersAgree(raw);
      assert Classify(raw) == InterfaceHeader ==> IsPlainHeader(raw) by { assert lines[|front|] == raw; }
      if IsPlainHeader(raw) { PlainHeaderIsHeader(raw); }
      if PlainOpen(front) { ReplacedHasPlain(front); }
      NotBad(o, Scan(o, Items(front)).value, Classify(raw));
      if Opens(front) != InInterface { StepOutside(o, Scan(o, Items(front)).value, Classify(raw)); }
      NonePlainMore(front, raw);
    }
  }

  lemma NonePlainMore(front: seq<string>, raw: string)
    ensures NonePlain(front + [raw]) <==> NonePlain(front) && !IsPlainHeader(raw)
  {
    var lines := front + [raw];
    assert forall i :: 0 <= i < |front| ==> lines[i] == front[i];
    assert lines[|front|] == raw;
  }

  lemma NotBad(o: Oracle, acc: Acc, item: Item)
    requires Step(o, acc, item).Some?
    ensures item != BadHeader
  {
  }

  /** Outside an interface section the interface accumulator stays. */
  lemma StepOutside(o: Oracle, acc: Acc, item: Item)
    requires acc.section != InInterface && Step(o, acc, item).Some?
    ensures Step(o, acc, item).value.iface == acc.iface
  {
  }

  /** The MTU rewrite preserves meaning: if the text parses to `c` and every
      interface header is spelled plainly, the rewritten text parses to `c` with
      the MTU set and nothing else changed, whether a directive was there or not. */
  lemma RewriteSetsMtu(o: Oracle, text: string, m: nat)
    requires Parse(o, text).Some? && AllPlain(Lines(text)) && MIN_MTU <= m < 0x10000
    ensures Parse(o, Rewrite(text, m)) == Some(Parse(o, text).value.(mtu := Some(m)))
  {
    var lines := Lines(text);
    PlainTextsSayOurs(o, lines);
    EndSectionKeepsIface(Scan(o, Items(lines)).value);
    hide Rewrite, LastWord, Classify;
    RewriteSpeaksLastWord(o, text, m);
  }

  lemma EndSectionKeepsIface(acc: Acc)
    ensures EndSection(acc).Some? ==> EndSection(acc).value.iface == acc.iface
  {
  }

  lemma StripCrsPlain(lines: seq<string>)
    ensures AllPlain(lines) ==> AllPlain(StripCrs(lines))
    ensures NonePlain(lines) ==> NonePlain(StripCrs(lines))
  {
    forall i | 0 <= i < |lines|
      ensures Trim(StripCrs(lines)[i]) == Trim(lines[i]) && Classify(StripCrs(lines)[i]) == Classify(lines[i])
    {
      TrimStripCr(lines[i]);
      StripCrSaysTheSame(lines[i]);
    }
  }

  // ---- headers the rewriter does not know --------------------------------------------------------

  lemma {:induction false} ReplaceFindsNothing(lines: seq<string>, m: nat)
    requires NonePlain(lines)
    ensures Replace(lines, m) == (lines, false, false)
  {
    if lines != [] {
      ReplaceFindsNothing(lines[..|lines| - 1], m);
      assert lines == lines[..|lines| - 1] + [lines[|lines| - 1]];
    }
  }

  lemma {:induction false} InsertFindsNothing(lines: seq<string>, m: nat)
    requires NonePlain(lines)
    ensures Insert(lines, m) == (lines, false)
  {
    if lines != [] {
      InsertFindsNothing(lines[..|lines| - 1], m);
      assert lines == lines[..|lines| - 1] + [lines[|lines| - 1]];
    }
  }

  /** With no interface header spelled plainly the override is lost without a
      word: the rewritten text parses exactly as before. */
  lemma UnknownHeadersLoseOverride(o: Oracle, text: string, m: nat)
    requires NonePlain(Lines(text))
    ensures Parse(o, Rewrite(text, m)) == Parse(o, text)
  {
    var lines := Lines(text);
    LinesHaveNoNewlines(text);
    ReplaceFindsNothing(lines, m);
    LinesOfUnlines(lines);
    StripCrsSayTheSame(lines);
    StripCrsPlain(lines);
    var again := Lines(Unlines(lines));
    LinesHaveNoNewlines(Unlines(lines));
    InsertFindsNothing(again, m);
    ParseUnlines(o, again);
  }

  lemma {:induction false} StripSpacesDrops(pad: string)
    requires AllSpaces(pad)
    ensures StripSpaces(pad) == []
  {
    if pad != [] { StripSpacesDrops(pad[1..]); }
  }

  function Bracketed(pad: string, name: string, tail: string): string {
    ['['] + (pad + (name + (tail + [']'])))
  }

  lemma InterfaceLetters(name: string)
    requires Lower(name) == "interface"
    ensures |name| == 9 && forall i :: 0 <= i < |name| ==> !IsSpace(name[i]) && name[i] != '#'
  {
    forall i | 0 <= i < |name|
      ensures !IsSpace(name[i]) && name[i] != '#'
    {
      assert LowerChar(name[i]) == "interface"[i];
    }
  }

  lemma BracketedStripped(pad: string, name: string, tail: string)
    requires AllSpaces(pad) && AllSpaces(tail) && Lower(name) == "interface"
    ensures HeaderName(Bracketed(pad, name, tail)) == Some("interface")
  {
    hide StripSpaces;
    InterfaceLetters(name);
    StripSpacesDrops(pad);
    StripSpacesDrops(tail);
    StripSpacesKeeps(name);
    StripSpacesKeeps(['[']);
    StripSpacesKeeps([']']);
    StripSpacesPrefix(['['], pad + (name + (tail + [']'])));
    StripSpacesPrefix(pad, name + (tail + [']']));
    StripSpacesPrefix(name, tail + [']']);
    StripSpacesPrefix(tail, [']']);
    var stripped := ['['] + (name + [']']);
    assert StripSpaces(Bracketed(pad, name, tail)) == stripped;
    assert stripped[1..|stripped| - 1] == name;
  }

  lemma BracketedTrimmed(pad: string, name: string, tail: string)
    requires AllSpaces(pad) && AllSpaces(tail) && '#' !in name
    ensures var raw := Bracketed(pad, name, tail); BeforeHash(raw) == raw && Trim(raw) == raw
  {
    var raw := Bracketed(pad, name, tail);
    forall i | 0 <= i < |raw|
      ensures raw[i] != '#'
    {
      assert raw[i] == '[' || raw[i] == ']' || raw[i] in pad || raw[i] in name || raw[i] in tail;
    }
    assert BeforeHash(raw) == raw;
    assert raw[|raw| - 1] == ']';
    assert [] + raw + [] == raw;
    TrimIs([], raw, []);
  }

  /** Every header with spaces inside the brackets is one the parser accepts
      and the rewriter does not know. */
  lemma SpacedHeaderIsNotPlain(pad: string, name: string, tail: string)
    requires AllSpaces(pad) && AllSpaces(tail) && pad + tail != [] && Lower(name) == "interface"
    ensures var raw := Bracketed(pad, name, tail); Classify(raw) == InterfaceHeader && !IsPlainHeader(raw)
  {
    InterfaceLetters(name);
    BracketedStripped(pad, name, tail);
    BracketedTrimmed(pad, name, tail);
    assert |Bracketed(pad, name, tail)| > 11 == |"[interface]"|;
  }

  lemma {:induction false} StripSpacesPrefix(a: string, b: string)
    ensures StripSpaces(a + b) == StripSpaces(a) + StripSpaces(b)
  {
    if a == [] {
      assert a + b == b;
    } else {
      assert (a + b)[1..] == a[1..] + b;
      StripSpacesPrefix(a[1..], b);
    }
  }

  // ---- the override is lost on accepted texts ---------------------------------------------------------

  const SPACED := "[ Interface ]"

  /** The text with its interface headers spelled as only the parser knows them. */
  function RespelledLines(lines: seq<string>): (r: seq<string>)
    ensures |r| == |lines|
  {
    seq(|lines|, i requires 0 <= i < |lines| => if Classify(lines[i]) == InterfaceHeader then SPACED else lines[i])
  }

  function Respelled(text: string): string { Unlines(RespelledLines(Lines(text))) }

  lemma SpacedIsHeader()
    ensures Classify(SPACED) == InterfaceHeader && !IsPlainHeader(SPACED) && '\n' !in SPACED
  {
    hide Classify, IsPlainHeader;
    assert SPACED == Bracketed(" ", "Interface", " ");
    assert Lower("Interface") == "interface";
    SpacedHeaderIsNotPlain(" ", "Interface", " ");
  }

  lemma RespelledSaysTheSame(lines: seq<string>)
    requires NoNewlines(lines)
    ensures Items(RespelledLines(lines)) == Items(lines)
    ensures NonePlain(RespelledLines(lines)) && NoNewlines(RespelledLines(lines))
  {
    hide Classify, IsPlainHeader;
    SpacedIsHeader();
    var r := RespelledLines(lines);
    forall i | 0 <= i < |lines|
      ensures !IsPlainHeader(r[i]) && '\n' !in r[i] && Classify(r[i]) == Classify(lines[i])
    {
      assert lines[i] in lines;
      if IsPlainHeader(lines[i]) { PlainHeaderIsHeader(lines[i]); }
    }
  }

  /** The loss concerns accepted texts, all of them: every text has a spelling
      that parses to the same configuration and on which the override has no
      effect, so an accepted one keeps the MTU it had, whatever is asked for. */
  lemma EveryTextHasALosingSpelling(o: Oracle, text: string, m: nat)
    ensures Parse(o, Respelled(text)) == Parse(o, text)
    ensures Parse(o, Rewrite(Respelled(text), m)) == Parse(o, text)
    ensures Parse(o, text).Some? && Parse(o, text).value.mtu != Some(m) ==>
              Parse(o, Rewrite(Respelled(text), m)) != Some(Parse(o, text).value.(mtu := Some(m)))
  {
    hide Classify, IsPlainHeader, Rewrite, NonePlain, Scan;
    var lines := Lines(text);
    LinesHaveNoNewlines(text);
    RespelledSaysTheSame(lines);
    ParseUnlines(o, RespelledLines(lines));
    LinesOfUnlines(RespelledLines(lines));
    StripCrsPlain(RespelledLines(lines));
    UnknownHeadersLoseOverride(o, Respelled(text), m);
  }
}
