/** Percent decoding and query parsing (src/CrossPointWebServer.cpp). A byte is a char below 256. */
module Query {
  import opened Text

  const NUL := 0 as char

  predicate IsSpace(c: char) {
    c == ' ' || 9 as char <= c <= 13 as char
  }

  predicate IsHex(c: char) {
    '0' <= c <= '9' || 'A' <= c <= 'F' || 'a' <= c <= 'f'
  }

  function HexVal(c: char): (v: nat)
    requires IsHex(c)
    ensures v < 16
  {
    if c <= '9' then c as int - '0' as int
    else if c <= 'F' then c as int - 'A' as int + 10
    else c as int - 'a' as int + 10
  }

  /** `strtol` in base 16 on a two-character C string: the value when it stops at a NUL, else None.
      Leading space, a sign and an embedded NUL are taken as the C library takes them. */
  function Strtol(a: char, b: char): Option<int> {
    if a == NUL then Some(0)
    else if IsSpace(a) then (if IsHex(b) then Some(HexVal(b)) else None)
    else if a == '+' then (if IsHex(b) then Some(HexVal(b)) else None)
    else if a == '-' then (if IsHex(b) then (var v: int := HexVal(b); Some(-v)) else None)
    else if IsHex(a) then
      if IsHex(b) then Some(16 * HexVal(a) + HexVal(b))
      else if b == NUL then Some(HexVal(a))
      else None
    else None
  }

  lemma DigitsAndSpaces(c: char)
    ensures IsHex(c) <==> c in "0123456789" || c in "abcdef" || c in "ABCDEF"
    ensures IsSpace(c) <==> c in " \t\n\r" || c as int == 11 || c as int == 12
    ensures forall i :: 0 <= i < 16 ==>
      && IsHex("0123456789abcdef"[i]) && HexVal("0123456789abcdef"[i]) == i
      && IsHex("0123456789ABCDEF"[i]) && HexVal("0123456789ABCDEF"[i]) == i
  {
  }

  // The C library's conversion, for any C string: white space, a sign, `0x`, digits.

  function SpaceEnd(s: string, i: nat): (k: nat)
    ensures i <= |s| ==> i <= k <= |s|
    decreases |s| - i
  {
    if i < |s| && IsSpace(s[i]) then SpaceEnd(s, i + 1) else i
  }

  function HexEnd(s: string, i: nat): (k: nat)
    ensures i <= |s| ==> i <= k <= |s|
    decreases |s| - i
  {
    if i < |s| && IsHex(s[i]) then HexEnd(s, i + 1) else i
  }

  function DigitOr0(c: char): nat {
    if IsHex(c) then HexVal(c) else 0
  }

  function HexValue(s: string): nat {
    if s == "" then 0 else 16 * HexValue(s[..|s| - 1]) + DigitOr0(s[|s| - 1])
  }

  /** The value `strtol(s, &end, 16)` returns and where `end` is left: at the start when there is no number. */
  function StrtolOf(s: string): (int, nat) {
    var sign := SpaceEnd(s, 0);
    var first := if sign < |s| && s[sign] in "+-" then sign + 1 else sign;
    var prefixed := first + 2 < |s| && s[first] == '0' && s[first + 1] in "xX" && IsHex(s[first + 2]);
    var digits := if prefixed then first + 2 else first;
    var end := HexEnd(s, digits);
    if digits >= |s| || end == digits then (0, 0)
    else
      var v: int := HexValue(s[digits..end]);
      (if sign < first && s[sign] == '-' then -v else v, end)
  }

  /** The text of a C string: what comes before its first NUL. */
  function BeforeNul(s: string): string {
    if s == "" || s[0] == NUL then "" else [s[0]] + BeforeNul(s[1..])
  }

  /** An escape is taken exactly when the library's conversion of its two characters ends at the C string's
      end, and its value is the library's. */
  lemma StrtolIsTheLibrarys(a: char, b: char)
    ensures var s := BeforeNul([a, b]);
      Strtol(a, b) == if StrtolOf(s).1 == |s| then Some(StrtolOf(s).0) else None
  {
    hide HexValue, SpaceEnd, HexEnd, BeforeNul;
    TextOfTwo(a, b);
    ScanOfTwo("");
    ScanOfTwo([a]);
    ScanOfTwo([a, b]);
    OneDigit(a);
    TwoDigits(a, b);
    assert [a][0..1] == [a];
  }

  /** Where the two scans end in a text of at most two characters. */
  lemma ScanOfTwo(s: string)
    requires |s| <= 2
    ensures SpaceEnd(s, 0) == (if s == "" || !IsSpace(s[0]) then 0 else if |s| == 1 || !IsSpace(s[1]) then 1 else 2)
    ensures HexEnd(s, 0) == (if s == "" || !IsHex(s[0]) then 0 else if |s| == 1 || !IsHex(s[1]) then 1 else 2)
    ensures |s| > 0 ==> HexEnd(s, 1) == if |s| == 1 || !IsHex(s[1]) then 1 else 2
    ensures |s| == 2 ==> HexEnd(s, 2) == 2
  {
    if |s| == 2 {
      assert SpaceEnd(s, 2) == 2 && HexEnd(s, 2) == 2;
      assert SpaceEnd(s, 1) == if IsSpace(s[1]) then 2 else 1;
      assert HexEnd(s, 1) == if IsHex(s[1]) then 2 else 1;
    }
  }

  lemma TextOfTwo(a: char, b: char)
    ensures BeforeNul([a, b]) == if a == NUL then "" else if b == NUL then [a] else [a, b]
  {
    assert [a, b][1..] == [b] && [b][1..] == "";
    assert BeforeNul("") == "";
    assert BeforeNul([b]) == if b == NUL then "" else [b];
    assert [a] + "" == [a] && [a] + [b] == [a, b];
  }

  lemma OneDigit(a: char)
    ensures IsHex(a) ==> HexValue([a]) == HexVal(a)
  {
    assert [a][..0] == "";
  }

  lemma TwoDigits(a: char, b: char)
    ensures IsHex(a) && IsHex(b) ==> HexValue([a, b]) == 16 * HexVal(a) + HexVal(b)
    ensures [a, b][0..2] == [a, b] && [a, b][1..2] == [b]
    ensures IsHex(b) ==> HexValue([b]) == HexVal(b)
  {
    assert [a, b][..1] == [a];
    OneDigit(a);
    OneDigit(b);
  }

  function ByteOf(v: int): char {
    (v % 256) as char
  }

  /** A value fits a byte; a negative one is stored as its two's complement. */
  lemma EscapeByte(a: char, b: char)
    ensures var v := Strtol(a, b);
      v.Some? ==> -16 < v.value < 256 && ByteOf(v.value) as int == if v.value < 0 then v.value + 256 else v.value
  {
  }

  function Decode(s: string): string {
    if s == "" then ""
    else if s[0] == '%' && |s| > 2 && Strtol(s[1], s[2]).Some? then
      [ByteOf(Strtol(s[1], s[2]).value)] + Decode(s[3..])
    else
      [if s[0] == '+' then ' ' else s[0]] + Decode(s[1..])
  }

  predicate EscapeAt(s: string, i: nat) {
    i + 2 < |s| && s[i] == '%' && Strtol(s[i + 1], s[i + 2]).Some?
  }

  lemma DecodeAt(s: string, i: nat)
    requires i < |s|
    ensures Decode(s[i..]) ==
      if EscapeAt(s, i) then [ByteOf(Strtol(s[i + 1], s[i + 2]).value)] + Decode(s[i + 3..])
      else [if s[i] == '+' then ' ' else s[i]] + Decode(s[i + 1..])
  {
    assert s[i..][1..] == s[i + 1..];
    if i + 2 < |s| {
      assert s[i..][3..] == s[i + 3..];
    }
  }

  lemma Regroup(a: string, c: char, b: string)
    ensures a + ([c] + b) == (a + [c]) + b
  {
  }

  method UrlDecode(input: string) returns (out: string)
    ensures out == Decode(input)
  {
    out := "";
    var i := 0;
    while i < |input|
      invariant 0 <= i <= |input|
      invariant out + Decode(input[i..]) == Decode(input)
    {
      DecodeAt(input, i);
      if input[i] == '%' && i + 2 < |input| {
        var value := Strtol(input[i + 1], input[i + 2]);
        if value.Some? {
          Regroup(out, ByteOf(value.value), Decode(input[i + 3..]));
          out := out + [ByteOf(value.value)];
          i := i + 3;
          continue;
        }
      }
      var c := if input[i] == '+' then ' ' else input[i];
      Regroup(out, c, Decode(input[i + 1..]));
      out := out + [c];
      i := i + 1;
    }
  }

  // --- form encoding ---

  /** `e` is a form encoding of `s`: each byte as itself, a space as `+`, or any byte as `%` and two
      hexadecimal digits of either case (section 2.1 of RFC 3986). */
  ghost predicate Encodes(e: string, s: string)
    decreases |s|
  {
    if s == "" then e == ""
    else
      || (e != "" && e[0] == s[0] && e[0] !in "%+&=" && Encodes(e[1..], s[1..]))
      || (e != "" && e[0] == '+' && s[0] == ' ' && Encodes(e[1..], s[1..]))
      || (&& |e| > 2 && e[0] == '%' && IsHex(e[1]) && IsHex(e[2])
          && s[0] == ByteOf(16 * HexVal(e[1]) + HexVal(e[2]))
          && Encodes(e[3..], s[1..]))
  }

  lemma {:induction false} DecodeUndoesEncode(e: string, s: string)
    requires Encodes(e, s)
    ensures Decode(e) == s && Free(e, '&') && Free(e, '=')
    decreases |s|
  {
    if s != "" {
      assert s == [s[0]] + s[1..];
      if e[0] == '%' {
        DecodeUndoesEncode(e[3..], s[1..]);
        assert e == e[..3] + e[3..];
      } else {
        DecodeUndoesEncode(e[1..], s[1..]);
        assert e == [e[0]] + e[1..];
      }
    }
  }

  predicate Unreserved(c: char) {
    'a' <= c <= 'z' || 'A' <= c <= 'Z' || '0' <= c <= '9' || c in "-._~"
  }

  function HexDigit(v: nat): (c: char)
    requires v < 16
    ensures IsHex(c) && HexVal(c) == v
  {
    if v < 10 then (v + '0' as int) as char else (v - 10 + 'A' as int) as char
  }

  predicate Bytes(s: string) {
    forall i :: 0 <= i < |s| ==> s[i] as int < 256
  }

  /** Section 2.3 of RFC 3986: unreserved bytes stand for themselves, every other byte is escaped. */
  function Encode(s: string): (e: string)
    requires Bytes(s)
    ensures Encodes(e, s)
  {
    if s == "" then ""
    else if Unreserved(s[0]) then [s[0]] + Encode(s[1..])
    else
      var v := s[0] as int;
      ['%', HexDigit(v / 16), HexDigit(v % 16)] + Encode(s[1..])
  }

  // --- queries ---

  type Values = map<string, string>

  function Assign(acc: Values, item: string): Values {
    match Find(item, "=")
    case None => acc[Decode(item) := ""]
    case Some(eq) => acc[Decode(item[..eq]) := Decode(item[eq + 1..])]
  }

  function ParseItems(q: string, acc: Values): Values
    decreases |q|
  {
    match Find(q, "&")
    case None => Assign(acc, q)
    case Some(amp) => ParseItems(q[amp + 1..], Assign(acc, q[..amp]))
  }

  function Parse(q: string): Values {
    ParseItems(q, map[])
  }

  method AssignItem(item: string, acc: Values) returns (out: Values)
    ensures out == Assign(acc, item)
  {
    var eq := Find(item, "=");
    if eq.None? {
      var key := UrlDecode(item);
      return acc[key := ""];
    }
    var key := UrlDecode(item[..eq.value]);
    var value := UrlDecode(item[eq.value + 1..]);
    return acc[key := value];
  }

  method ParseQuery(query: string) returns (out: Values)
    ensures out == Parse(query)
  {
    hide Assign, Decode, FindFrom, At;
    out := map[];
    var start := 0;
    ghost var rest := query;
    while start <= |query|
      invariant 0 <= start <= |query| && rest == query[start..]
      invariant ParseItems(rest, out) == Parse(query)
      decreases |query| - start
    {
      FindTail(query, "&", start);
      var amp := FindFrom(query, "&", start);
      if amp.None? {
        out := AssignItem(query[start..], out);
        break;
      }
      assert query[start..amp.value] == rest[..amp.value - start];
      out := AssignItem(query[start..amp.value], out);
      rest := rest[amp.value - start + 1..];
      start := amp.value + 1;
    }
  }

  /** A key and a value with the texts that encode them. */
  datatype Entry = Entry(key: string, value: string, keyText: string, valueText: string) {
    ghost predicate Valid() {
      Encodes(keyText, key) && Encodes(valueText, value)
    }

    function Text(): string {
      keyText + "=" + valueText
    }
  }

  function Form(entries: seq<Entry>): string
    requires entries != []
  {
    if |entries| == 1 then entries[0].Text() else entries[0].Text() + "&" + Form(entries[1..])
  }

  function Assigned(entries: seq<Entry>, acc: Values): Values {
    if entries == [] then acc else Assigned(entries[1..], acc[entries[0].key := entries[0].value])
  }

  lemma EntryAssigns(n: Entry, acc: Values)
    requires n.Valid()
    ensures Assign(acc, n.Text()) == acc[n.key := n.value]
    ensures !Contains(n.Text(), "&")
  {
    DecodeUndoesEncode(n.keyText, n.key);
    DecodeUndoesEncode(n.valueText, n.value);
    NotContained(n.keyText, "=", '=');
    DelimiterFound(n.keyText, "=", n.valueText);
    assert n.Text()[..|n.keyText|] == n.keyText;
    assert n.Text()[|n.keyText| + 1..] == n.valueText;
    NotContained(n.Text(), "&", '&');
  }

  /** Parsing undoes form encoding: every non-empty list of entries, however each is encoded. */
  lemma {:induction false} ParseUndoesForm(entries: seq<Entry>, acc: Values)
    requires entries != [] && forall n :: n in entries ==> n.Valid()
    ensures ParseItems(Form(entries), acc) == Assigned(entries, acc)
    decreases |entries|
  {
    var n := entries[0];
    EntryAssigns(n, acc);
    if |entries| > 1 {
      var rest := Form(entries[1..]);
      DelimiterFound(n.Text(), "&", rest);
      assert Form(entries)[..|n.Text()|] == n.Text();
      assert Form(entries)[|n.Text()| + 1..] == rest;
      ParseUndoesForm(entries[1..], acc[n.key := n.value]);
    } else {
      NoMatch(n.Text(), "&");
      assert entries[1..] == [];
    }
  }

  ghost predicate Lists(entries: seq<Entry>, m: Values) {
    && (forall n :: n in entries ==> n.Valid() && n.key in m && m[n.key] == n.value)
    && (forall k :: k in m ==> exists n :: n in entries && n.key == k)
  }

  lemma {:induction false} AssignedMeets(entries: seq<Entry>, m: Values, acc: Values)
    requires forall n :: n in entries ==> n.key in m && m[n.key] == n.value
    requires forall k :: k in acc ==> k in m && acc[k] == m[k]
    ensures var r := Assigned(entries, acc);
      && (forall k :: k in r ==> k in m && r[k] == m[k])
      && (forall n :: n in entries ==> n.key in r)
      && (forall k :: k in acc ==> k in r)
    decreases |entries|
  {
    if entries != [] {
      AssignedMeets(entries[1..], m, acc[entries[0].key := entries[0].value]);
    }
  }

  /** Any listing of a non-empty map, in any order and any encoding, parses back to the map. */
  lemma QueryRoundTrip(entries: seq<Entry>, m: Values)
    requires m != map[] && Lists(entries, m)
    ensures entries != [] && Parse(Form(entries)) == m
  {
    hide Encodes, Decode, Form, ParseItems, Assigned;
    var k :| k in m;
    ParseUndoesForm(entries, map[]);
    AssignedMeets(entries, m, map[]);
  }

  /** Every non-empty map of byte strings has such a listing. */
  lemma EveryMapIsListed(m: Values) returns (entries: seq<Entry>)
    requires forall k :: k in m ==> Bytes(k) && Bytes(m[k])
    ensures Lists(entries, m)
  {
    entries := [];
    var todo := m.Keys;
    while todo != {}
      invariant todo <= m.Keys
      invariant forall n :: n in entries ==> n.Valid() && n.key in m && m[n.key] == n.value
      invariant forall k :: k in m && k !in todo ==> exists n :: n in entries && n.key == k
    {
      var k :| k in todo;
      var n := Entry(k, m[k], Encode(k), Encode(m[k]));
      ghost var before := entries;
      entries := entries + [n];
      todo := todo - {k};
      forall j | j in m && j !in todo ensures exists n :: n in entries && n.key == j {
        if j == k {
          assert n in entries;
        } else {
          var n' :| n' in before && n'.key == j;
          assert n' in entries;
        }
      }
    }
  }

  lemma {:induction false} ParseAddsKeys(q: string, acc: Values)
    ensures ParseItems(q, acc) != map[]
    decreases |q|
  {
    hide Decode;
    match Find(q, "&") {
      case None => AssignAddsKey(q, acc);
      case Some(amp) => ParseAddsKeys(q[amp + 1..], Assign(acc, q[..amp]));
    }
  }

  lemma AssignAddsKey(item: string, acc: Values)
    ensures Assign(acc, item) != map[]
  {
    hide Decode;
    match Find(item, "=") {
      case None => assert Decode(item) in Assign(acc, item);
      case Some(eq) => assert Decode(item[..eq]) in Assign(acc, item);
    }
  }

  /** The empty map is the exception: no query parses to it. */
  lemma NoQueryForEmpty(q: string)
    ensures Parse(q) != map[]
  {
    ParseAddsKeys(q, map[]);
  }

  /** Its form is the empty query, which parses to one empty key. */
  lemma EmptyQuery()
    ensures Parse("") == map["" := ""]
  {
    assert Find("", "&") == None && Find("", "=") == None;
  }
}
