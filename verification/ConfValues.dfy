/** What the values of a directive may look like, in terms of the text itself:
    white space, decimal numbers, the MTU and endpoints. */
module ConfValues {
  import opened Prelude
  import opened Text
  import opened ConfParser

  /** The code points with the Unicode property White_Space. */
  const WHITE_SPACE: set<int> :=
    {0x09, 0x0A, 0x0B, 0x0C, 0x0D, 0x20, 0x85, 0xA0, 0x1680,
     0x2000, 0x2001, 0x2002, 0x2003, 0x2004, 0x2005, 0x2006, 0x2007, 0x2008, 0x2009, 0x200A,
     0x2028, 0x2029, 0x202F, 0x205F, 0x3000}

  lemma SpaceIs(c: char)
    ensures IsSpace(c) <==> c as int in WHITE_SPACE
  {
  }

  const CAPITALS: string := "ABCDEFGHIJKLMNOPQRSTUVWXYZ"
  const LETTERS: string := "abcdefghijklmnopqrstuvwxyz"

  /** Lower case changes the 26 capital letters of ASCII and nothing else. */
  lemma LowerIs(c: char)
    ensures forall i :: 0 <= i < 26 && c == CAPITALS[i] ==> LowerChar(c) == LETTERS[i]
    ensures c !in CAPITALS ==> LowerChar(c) == c
  {
    assert forall i :: 0 <= i < 26 ==> CAPITALS[i] as int == 65 + i && LETTERS[i] as int == 97 + i;
    if 'A' <= c <= 'Z' { assert CAPITALS[c as int - 65] == c; }
  }

  // ---- numbers ------------------------------------------------------------------------------

  function Zeros(k: nat): (r: string)
    ensures |r| == k
  {
    seq(k, _ => '0')
  }

  /** Digits are leading zeros and the shortest way to write their value. */
  lemma {:induction false} Canonical(digits: string) returns (k: nat)
    requires digits != [] && AllDigits(digits)
    ensures digits == Zeros(k) + PrintDec(DecValue(digits))
  {
    var front, last := digits[..|digits| - 1], digits[|digits| - 1];
    assert digits == front + [last];
    if front == [] {
      k := 0;
      assert DecValue(front) == 0;
    } else {
      k := Canonical(front);
      if DecValue(front) == 0 {
        assert PrintDec(0) == ['0'];
        assert Zeros(k) + ['0'] == Zeros(k + 1);
        k := k + 1;
      }
    }
  }

  lemma {:induction false} LeadingZero(s: string)
    requires AllDigits(s)
    ensures AllDigits(['0'] + s) && DecValue(['0'] + s) == DecValue(s)
  {
    if s == [] {
      assert (['0'] + s)[..0] == [] && DecValue(['0'] + s) == DecValue([]) * 10 + 0;
    } else {
      LeadingZero(s[..|s| - 1]);
      assert (['0'] + s)[..|s|] == ['0'] + s[..|s| - 1];
    }
  }

  lemma {:induction false} LeadingZeros(k: nat, n: nat)
    ensures AllDigits(Zeros(k) + PrintDec(n)) && DecValue(Zeros(k) + PrintDec(n)) == n && Zeros(k) + PrintDec(n) != []
  {
    PrintDecParses(n);
    if k == 0 {
      assert Zeros(k) + PrintDec(n) == PrintDec(n);
    } else {
      LeadingZeros(k - 1, n);
      LeadingZero(Zeros(k - 1) + PrintDec(n));
      assert Zeros(k) + PrintDec(n) == ['0'] + (Zeros(k - 1) + PrintDec(n));
    }
  }

  /** At least one digit, with this value. */
  ghost predicate DigitsOf(digits: string, n: nat) { exists k: nat :: digits == Zeros(k) + PrintDec(n) }

  lemma DigitsAre(digits: string, n: nat)
    ensures DigitsOf(digits, n) <==> digits != [] && AllDigits(digits) && DecValue(digits) == n
  {
    if DigitsOf(digits, n) {
      var k: nat :| digits == Zeros(k) + PrintDec(n);
      LeadingZeros(k, n);
    }
    if digits != [] && AllDigits(digits) && DecValue(digits) == n {
      var k := Canonical(digits);
    }
  }

  /** A number below 65536 is written with an optional plus sign, any leading
      zeros and its decimal digits, and in no other way. */
  ghost predicate Decimal(s: string, n: nat) {
    n < 65536 && (DigitsOf(s, n) || (s != [] && s[0] == '+' && DigitsOf(s[1..], n)))
  }

  lemma NumberRead(s: string, n: nat)
    ensures ParseU16(s) == Some(n) <==> Decimal(s, n)
  {
    hide DigitsOf, DecValue;
    DigitsAre(s, n);
    if s != [] { DigitsAre(s[1..], n); }
  }

  /** An MTU is such a number, at least 576. */
  lemma MtuRead(s: string, n: nat)
    ensures ParseMtu(s) == Some(n) <==> Decimal(s, n) && n >= 576
  {
    NumberRead(s, n);
  }

  // ---- lists ----------------------------------------------------------------------------------

  /** Entry by entry, `values` is what `entries` say. */
  predicate ReadAs<T(==)>(f: string -> Option<T>, entries: seq<string>, values: seq<T>) {
    |entries| == |values| && forall i :: 0 <= i < |entries| ==> f(entries[i]) == Some(values[i])
  }

  predicate AllRead<T>(f: string -> Option<T>, entries: seq<string>) {
    forall i :: 0 <= i < |entries| ==> f(entries[i]).Some?
  }

  /** A list is read entry by entry, and rejected exactly if one entry is. */
  lemma {:induction false} ListRead<T>(f: string -> Option<T>, entries: seq<string>)
    ensures ParseAll(f, entries).Some? <==> AllRead(f, entries)
    ensures ParseAll(f, entries).Some? ==> ReadAs(f, entries, ParseAll(f, entries).value)
  {
    if entries != [] {
      var front, last := entries[..|entries| - 1], entries[|entries| - 1];
      ListRead(f, front);
      assert entries == front + [last];
      assert AllRead(f, entries) <==> AllRead(f, front) && f(last).Some?;
    }
  }

  lemma ListReadIs<T>(f: string -> Option<T>, entries: seq<string>, values: seq<T>)
    requires ReadAs(f, entries, values)
    ensures ParseAll(f, entries) == Some(values)
  {
    ListRead(f, entries);
    assert AllRead(f, entries);
    assert ParseAll(f, entries).value == values;
  }

  /** Without a comma a list has one entry, or none if it is blank. */
  lemma CsvOne(entry: string)
    requires ',' !in entry
    ensures SplitCsv(entry) == if Trim(entry) == [] then [] else [Trim(entry)]
  {
    hide Trim;
    assert Split(entry, ',') == [entry];
    assert [entry][..0] == [] && NonEmpty([]) == [];
  }

  lemma {:induction false} NonEmptyConcat(a: seq<string>, b: seq<string>)
    ensures NonEmpty(a + b) == NonEmpty(a) + NonEmpty(b)
  {
    hide Trim;
    if b == [] {
      assert a + b == a;
    } else {
      NonEmptyConcat(a, b[..|b| - 1]);
      assert (a + b)[..|a + b| - 1] == a + b[..|b| - 1];
    }
  }

  /** A comma ends the first entry. */
  lemma CsvMore(entry: string, rest: string)
    requires ',' !in entry
    ensures SplitCsv(entry + "," + rest) == SplitCsv(entry) + SplitCsv(rest)
  {
    hide Trim, NonEmpty;
    var s := entry + "," + rest;
    assert s[|entry|] == ',' && IndexOf(s, ',') == |entry|;
    assert s[..|entry|] == entry && s[|entry| + 1..] == rest;
    assert Split(entry, ',') == [entry];
    NonEmptyConcat([entry], Split(rest, ','));
  }

  // ---- endpoints ------------------------------------------------------------------------------

  predicate Brackets(s: string) { forall i :: 0 <= i < |s| ==> s[i] == '[' || s[i] == ']' }

  predicate Bare(host: string) {
    host != [] ==> host[0] != '[' && host[0] != ']' && host[|host| - 1] != '[' && host[|host| - 1] != ']'
  }

  lemma {:induction false} BracketsGo(left: string, host: string, right: string)
    requires Brackets(left) && Brackets(right) && Bare(host)
    ensures TrimBrackets(left + host + right) == host
    decreases |left| + |right|
  {
    var s := left + host + right;
    if left != [] {
      assert s[1..] == left[1..] + host + right;
      BracketsGo(left[1..], host, right);
    } else if right != [] && host == [] {
      assert s[1..] == left + host + right[1..];
      BracketsGo(left, host, right[1..]);
    } else if right != [] {
      assert s[..|s| - 1] == left + host + right[..|right| - 1];
      BracketsGo(left, host, right[..|right| - 1]);
    } else {
      assert s == host;
    }
  }

  /** An endpoint that is no literal socket address is split at its last colon:
      a port, and a host that brackets may surround, which is an address or a
      name to resolve. */
  lemma EndpointRead(o: Oracle, left: string, host: string, right: string, port: string)
    requires Brackets(left) && Brackets(right) && Bare(host) && ':' !in port
    ensures var text := left + host + right + ":" + port;
            ParseEndpoint(o, text)
            == if o.sock(text).Some? then o.sock(text)
               else if ParseU16(port).None? then None
               else if o.ip(host).Some? then Some(SockAddr(o.ip(host).value, ParseU16(port).value))
               else o.resolve(host, ParseU16(port).value)
  {
    var text, before := left + host + right + ":" + port, left + host + right;
    BracketsGo(left, host, right);
    assert text[|before|] == ':' && text[|before| + 1..] == port && text[..|before|] == before;
    assert LastIndexOf(text, ':') == |before|;
  }

  lemma EndpointNeedsPort(o: Oracle, text: string)
    requires ':' !in text
    ensures ParseEndpoint(o, text) == o.sock(text)
  {
  }
}
