/**
  The JSON text of RFC 8259 as far as page tokens need it: an object whose
  members all have integer values. The writer is `json.dumps` on a dict of
  ints (separators `", "` and `": "`, keys in insertion order, integers in
  decimal with a leading `-` when negative); the reader is `json.loads`
  restricted to that shape: optional whitespace between tokens, keys without
  escape sequences, integers without fraction or exponent, nothing after the
  closing brace.
*/
module Json {
  import opened Wrappers

  /** A key and its integer value. */
  type Member = (string, int)

  /** The four whitespace characters of RFC 8259, section 2. */
  predicate IsWs(c: char) {
    c == ' ' || c == '\t' || c == '\n' || c == '\r'
  }

  predicate IsDigit(c: char) {
    '0' <= c <= '9'
  }

  predicate AllDigits(s: string) {
    forall i :: 0 <= i < |s| ==> IsDigit(s[i])
  }

  predicate IsAscii(s: string) {
    forall i :: 0 <= i < |s| ==> s[i] as int < 128
  }

  /** A key written without escapes, so that the reader reads it back verbatim. */
  predicate IsPlainKey(k: string) {
    forall i :: 0 <= i < |k| ==> k[i] != '"' && k[i] != '\\' && k[i] >= ' '
  }

  // ---------------------------------------------------------------- writer

  function DigitChar(d: int): (c: char)
    requires 0 <= d < 10
    ensures IsDigit(c)
  {
    ('0' as int + d) as char
  }

  /** Python's `str(n)` for n >= 0: decimal digits, no leading zero. */
  function NatText(n: nat): (s: string)
    ensures |s| > 0 && AllDigits(s)
    ensures n > 0 ==> s[0] != '0'
    decreases n
  {
    if n < 10 then [DigitChar(n)] else NatText(n / 10) + [DigitChar(n % 10)]
  }

  /** Python's `str(n)` for any integer. */
  function IntText(n: int): (s: string)
    ensures |s| > 0 && IsAscii(s)
    ensures s[0] == '-' || IsDigit(s[0])
  {
    if n < 0 then "-" + NatText(-n) else NatText(n)
  }

  /** `"key": value` */
  function MemberText(m: Member): (s: string)
  {
    "\"" + m.0 + "\": " + IntText(m.1)
  }

  /** The members separated by `", "`. */
  function MembersText(ms: seq<Member>): (s: string)
    requires |ms| > 0
    ensures |s| > 0 && s[0] == '"'
    decreases |ms|
  {
    if |ms| == 1 then MemberText(ms[0]) else MemberText(ms[0]) + ", " + MembersText(ms[1..])
  }

  /** `json.dumps` of a dict of integers. */
  function ObjectText(ms: seq<Member>): (s: string)
    ensures |s| >= 2 && s[0] == '{' && s[|s| - 1] == '}'
  {
    if ms == [] then "{}" else "{" + MembersText(ms) + "}"
  }

  // ---------------------------------------------------------------- reader
  // Each reader returns what it read and the rest of the input.

  function SkipWs(s: string): (r: string)
    ensures |r| <= |s|
    ensures r == [] || !IsWs(r[0])
    decreases |s|
  {
    if s != [] && IsWs(s[0]) then SkipWs(s[1..]) else s
  }

  /** The longest prefix of digits. */
  function TakeDigits(s: string): (d: string)
    ensures |d| <= |s| && d == s[..|d|] && AllDigits(d)
    ensures |d| < |s| ==> !IsDigit(s[|d|])
    decreases |s|
  {
    if s != [] && IsDigit(s[0]) then [s[0]] + TakeDigits(s[1..]) else []
  }

  /** The number a string of digits denotes. */
  function DigitsValue(d: string): (v: nat)
    requires AllDigits(d)
    decreases |d|
  {
    if d == [] then 0 else DigitsValue(d[..|d| - 1]) * 10 + (d[|d| - 1] as int - '0' as int)
  }

  /** `0` or a digit string without a leading zero. */
  function ParseNat(s: string): (r: Option<(nat, string)>)
    ensures r.Some? ==> |r.value.1| < |s|
  {
    var d := TakeDigits(s);
    if d == [] || (d[0] == '0' && |d| > 1) then None
    else Some((DigitsValue(d), s[|d|..]))
  }

  /** A JSON integer: an optional minus sign and a natural number. */
  function ParseInt(s: string): (r: Option<(int, string)>)
    ensures r.Some? ==> |r.value.1| < |s|
  {
    if s != [] && s[0] == '-' then
      var n :- ParseNat(s[1..]);
      Some((-(n.0 as int), n.1))
    else
      ParseNat(s)
  }

  /** The characters of a key up to its closing quote (the opening one already read). */
  function ScanKey(s: string): (r: Option<(string, string)>)
    ensures r.Some? ==> |r.value.1| < |s|
    ensures r.Some? ==> IsPlainKey(r.value.0)
    decreases |s|
  {
    if s == [] then None
    else if s[0] == '"' then Some(([], s[1..]))
    else if s[0] == '\\' || s[0] < ' ' then None
    else
      var k :- ScanKey(s[1..]);
      Some(([s[0]] + k.0, k.1))
  }

  function ParseKey(s: string): (r: Option<(string, string)>)
    ensures r.Some? ==> |r.value.1| < |s|
    ensures r.Some? ==> IsPlainKey(r.value.0)
  {
    if s != [] && s[0] == '"' then ScanKey(s[1..]) else None
  }

  /** `"key" : value`, with optional whitespace around the colon. */
  function ParseMember(s: string): (r: Option<(Member, string)>)
    ensures r.Some? ==> |r.value.1| < |s|
    ensures r.Some? ==> IsPlainKey(r.value.0.0)
  {
    var k :- ParseKey(s);
    var colon := SkipWs(k.1);
    if colon == [] || colon[0] != ':' then None
    else
      var v :- ParseInt(SkipWs(colon[1..]));
      Some(((k.0, v.0), v.1))
  }

  /** Members separated by commas, up to and including the closing brace. */
  function ParseMembers(s: string): (r: Option<(seq<Member>, string)>)
    ensures r.Some? ==> |r.value.1| < |s|
    decreases |s|
  {
    var m :- ParseMember(s);
    var sep := SkipWs(m.1);
    if sep != [] && sep[0] == ',' then
      var more :- ParseMembers(SkipWs(sep[1..]));
      Some(([m.0] + more.0, more.1))
    else if sep != [] && sep[0] == '}' then
      Some(([m.0], sep[1..]))
    else
      None
  }

  /** `json.loads` of an object of integers; None is the `JSONDecodeError` the source raises. */
  function ParseObject(s: string): (r: Option<seq<Member>>)
    ensures s == [] ==> r.None?
    ensures r.Some? ==> forall i :: 0 <= i < |r.value| ==> IsPlainKey(r.value[i].0)
  {
    var open := SkipWs(s);
    if open == [] || open[0] != '{' then None
    else
      var first := SkipWs(open[1..]);
      if first != [] && first[0] == '}' then
        if SkipWs(first[1..]) == [] then Some([]) else None
      else
        var body :- ParseMembers(first);
        ParsedKeysPlain(first);
        if SkipWs(body.1) == [] then Some(body.0) else None
  }

  /** Every key the member reader accepts is plain. */
  lemma {:induction false} ParsedKeysPlain(s: string)
    requires ParseMembers(s).Some?
    ensures forall i :: 0 <= i < |ParseMembers(s).value.0| ==> IsPlainKey(ParseMembers(s).value.0[i].0)
    decreases |s|
  {
    var m := ParseMember(s).value;
    var sep := SkipWs(m.1);
    if sep != [] && sep[0] == ',' {
      ParsedKeysPlain(SkipWs(sep[1..]));
    }
  }

  // ---------------------------------------------------------------- round trip

  lemma {:induction false} NatTextValue(n: nat)
    ensures DigitsValue(NatText(n)) == n
    decreases n
  {
    if n >= 10 {
      var s := NatText(n / 10);
      NatTextValue(n / 10);
      assert (s + [DigitChar(n % 10)])[..|s|] == s;
    }
  }

  lemma {:induction false} TakeDigitsOf(d: string, rest: string)
    requires AllDigits(d)
    requires rest == [] || !IsDigit(rest[0])
    ensures TakeDigits(d + rest) == d
    decreases |d|
  {
    if d != [] {
      TakeDigitsOf(d[1..], rest);
      assert (d + rest)[1..] == d[1..] + rest;
    }
  }

  lemma ParseNatText(n: nat, rest: string)
    requires rest == [] || !IsDigit(rest[0])
    ensures ParseNat(NatText(n) + rest) == Some((n, rest))
  {
    var d := NatText(n);
    TakeDigitsOf(d, rest);
    NatTextValue(n);
    assert (d + rest)[|d|..] == rest;
  }

  /** Reading an integer back from its decimal text. */
  lemma ParseIntText(n: int, rest: string)
    requires rest == [] || !IsDigit(rest[0])
    ensures ParseInt(IntText(n) + rest) == Some((n, rest))
  {
    if n < 0 {
      ParseNatText(-n, rest);
      assert ("-" + NatText(-n) + rest)[1..] == NatText(-n) + rest;
    } else {
      ParseNatText(n, rest);
    }
  }

  lemma {:induction false} ScanKeyText(k: string, rest: string)
    requires IsPlainKey(k)
    ensures ScanKey(k + "\"" + rest) == Some((k, rest))
    decreases |k|
  {
    if k == [] {
      assert k + "\"" + rest == ['"'] + rest;
    } else {
      ScanKeyText(k[1..], rest);
      assert (k + "\"" + rest)[1..] == k[1..] + "\"" + rest;
      assert [k[0]] + k[1..] == k;
    }
  }

  /** One space before a token is skipped. */
  lemma SkipSpace(t: string)
    requires t != [] && !IsWs(t[0])
    ensures SkipWs(" " + t) == t
  {
    assert (" " + t)[1..] == t;
  }

  /** After the comma of a `", "` separator, the space is skipped. */
  lemma SkipSeparator(t: string)
    requires t != [] && !IsWs(t[0])
    ensures SkipWs((", " + t)[1..]) == t
  {
    assert (", " + t)[1..] == " " + t;
    SkipSpace(t);
  }

  /** A quoted plain key, followed by anything, reads back as the key. */
  lemma ParseKeyText(k: string, after: string)
    requires IsPlainKey(k)
    ensures ParseKey("\"" + (k + "\"" + after)) == Some((k, after))
  {
    ScanKeyText(k, after);
    assert ("\"" + (k + "\"" + after))[1..] == k + "\"" + after;
  }

  /** A member is a key, a colon and an integer. */
  lemma ParseMemberParts(s: string, key: string, afterKey: string, v: int, rest: string)
    requires ParseKey(s) == Some((key, afterKey))
    requires afterKey != [] && afterKey[0] == ':'
    requires ParseInt(SkipWs(afterKey[1..])) == Some((v, rest))
    ensures ParseMember(s) == Some(((key, v), rest))
  {
    assert SkipWs(afterKey) == afterKey;
  }

  lemma ParseMemberText(m: Member, rest: string)
    requires IsPlainKey(m.0)
    requires rest == [] || !IsDigit(rest[0])
    ensures ParseMember(MemberText(m) + rest) == Some((m, rest))
  {
    var num := IntText(m.1) + rest;
    var afterKey := ": " + num;
    assert MemberText(m) + rest == "\"" + (m.0 + "\"" + afterKey);
    ParseKeyText(m.0, afterKey);
    assert afterKey[1..] == " " + num;
    SkipSpace(num);
    ParseIntText(m.1, rest);
    ParseMemberParts(MemberText(m) + rest, m.0, afterKey, m.1, rest);
  }

  /** A member followed by `", "` and further members. */
  lemma ParseMembersCons(head: string, m: Member, tail: string, more: seq<Member>, rest: string)
    requires ParseMember(head + (", " + tail)) == Some((m, ", " + tail))
    requires tail != [] && !IsWs(tail[0])
    requires ParseMembers(tail) == Some((more, rest))
    ensures ParseMembers(head + (", " + tail)) == Some(([m] + more, rest))
  {
    assert SkipWs(", " + tail) == ", " + tail;
    SkipSeparator(tail);
  }

  /** The last member, followed by the closing brace. */
  lemma ParseLastMember(m: Member, rest: string)
    requires IsPlainKey(m.0)
    ensures ParseMembers(MemberText(m) + ("}" + rest)) == Some(([m], rest))
  {
    var close := "}" + rest;
    ParseMemberText(m, close);
    assert SkipWs(close) == close;
    assert close[1..] == rest;
  }

  /** Reading back the members the writer produced, up to the closing brace. */
  lemma {:induction false} ParseMembersText(ms: seq<Member>, rest: string)
    requires |ms| > 0
    requires forall i :: 0 <= i < |ms| ==> IsPlainKey(ms[i].0)
    ensures ParseMembers(MembersText(ms) + "}" + rest) == Some((ms, rest))
    decreases |ms|
  {
    if |ms| == 1 {
      ParseOneMemberText(ms, rest);
    } else {
      ParseMembersText(ms[1..], rest);
      ParseMoreMembersText(ms, rest);
    }
  }

  /** A single written member, then the closing brace. */
  lemma ParseOneMemberText(ms: seq<Member>, rest: string)
    requires |ms| == 1 && IsPlainKey(ms[0].0)
    ensures ParseMembers(MembersText(ms) + "}" + rest) == Some((ms, rest))
  {
    assert MembersText(ms) + "}" + rest == MemberText(ms[0]) + ("}" + rest);
    ParseLastMember(ms[0], rest);
    assert [ms[0]] == ms;
  }

  /** A written member ahead of further members that read back. */
  lemma ParseMoreMembersText(ms: seq<Member>, rest: string)
    requires |ms| > 1 && IsPlainKey(ms[0].0)
    requires ParseMembers(MembersText(ms[1..]) + "}" + rest) == Some((ms[1..], rest))
    ensures ParseMembers(MembersText(ms) + "}" + rest) == Some((ms, rest))
  {
    assert [ms[0]] + ms[1..] == ms;
    var tail := MembersText(ms[1..]) + "}" + rest;
    MembersTextCons(ms, rest);
    ParseMemberAndMore(ms[0], tail, ms[1..], rest);
  }

  lemma Assoc(a: string, b: string, c: string)
    ensures (a + b) + c == a + (b + c)
  {
  }

  lemma MembersTextCons(ms: seq<Member>, rest: string)
    requires |ms| > 1
    ensures MembersText(ms) + "}" + rest == MemberText(ms[0]) + (", " + (MembersText(ms[1..]) + "}" + rest))
  {
    var a, b := MemberText(ms[0]), MembersText(ms[1..]);
    assert MembersText(ms) == a + ", " + b;
    Assoc(a + ", ", b, "}");
    Assoc(a + ", ", b + "}", rest);
    Assoc(a, ", ", b + "}" + rest);
  }

  /** A written member followed by `", "` and members that read back. */
  lemma ParseMemberAndMore(m: Member, tail: string, more: seq<Member>, rest: string)
    requires IsPlainKey(m.0)
    requires tail != [] && tail[0] == '"'
    requires ParseMembers(tail) == Some((more, rest))
    ensures ParseMembers(MemberText(m) + (", " + tail)) == Some(([m] + more, rest))
  {
    ParseMemberText(m, ", " + tail);
    ParseMembersCons(MemberText(m), m, tail, more, rest);
  }

  /** `json.loads(json.dumps(d)) == d` for a dict of integers with plain keys. */
  lemma ParseObjectText(ms: seq<Member>)
    requires forall i :: 0 <= i < |ms| ==> IsPlainKey(ms[i].0)
    ensures ParseObject(ObjectText(ms)) == Some(ms)
  {
    if ms == [] {
      ParseEmptyObject();
    } else {
      ParseMembersText(ms, []);
      ObjectTextBody(ms);
      ParseNonEmptyObject(ObjectText(ms), ms);
    }
  }

  lemma ParseEmptyObject()
    ensures ParseObject(ObjectText([])) == Some([])
  {
    assert ObjectText([]) == "{}";
    assert "{}"[1..] == "}";
    assert "}"[1..] == [];
  }

  /** A non-empty object is a brace, then the members and the closing brace. */
  lemma ObjectTextBody(ms: seq<Member>)
    requires ms != []
    ensures var s := ObjectText(ms);
            |s| > 1 && s[0] == '{' && s[1] == '"' && s[1..] == MembersText(ms) + "}" + []
  {
    var members := MembersText(ms);
    assert ObjectText(ms) == "{" + members + "}";
    assert ("{" + members + "}")[1..] == members + "}" + [];
  }

  lemma ParseNonEmptyObject(s: string, ms: seq<Member>)
    requires |s| > 1 && s[0] == '{' && s[1] == '"'
    requires ParseMembers(s[1..]) == Some((ms, []))
    ensures ParseObject(s) == Some(ms)
  {
  }

  // ---------------------------------------------------------------- character set

  lemma AsciiConcat(a: string, b: string)
    requires IsAscii(a) && IsAscii(b)
    ensures IsAscii(a + b)
  {
  }

  lemma MemberTextAscii(m: Member)
    requires IsAscii(m.0)
    ensures IsAscii(MemberText(m))
  {
    AsciiConcat("\"", m.0);
    AsciiConcat("\"" + m.0, "\": ");
    AsciiConcat("\"" + m.0 + "\": ", IntText(m.1));
  }

  lemma {:induction false} MembersTextAscii(ms: seq<Member>)
    requires |ms| > 0
    requires forall i :: 0 <= i < |ms| ==> IsAscii(ms[i].0)
    ensures IsAscii(MembersText(ms))
    decreases |ms|
  {
    MemberTextAscii(ms[0]);
    if |ms| > 1 {
      MembersTextAscii(ms[1..]);
      AsciiConcat(MemberText(ms[0]), ", ");
      AsciiConcat(MemberText(ms[0]) + ", ", MembersText(ms[1..]));
    }
  }

  /** The writer emits ASCII only, so its UTF-8 encoding is one byte per character. */
  lemma ObjectTextAscii(ms: seq<Member>)
    requires forall i :: 0 <= i < |ms| ==> IsAscii(ms[i].0)
    ensures IsAscii(ObjectText(ms))
  {
    if ms != [] {
      MembersTextAscii(ms);
      AsciiConcat("{", MembersText(ms));
      AsciiConcat("{" + MembersText(ms), "}");
    }
  }
}
