/** JSON objects of strings and nulls, as Go and the browser write them; the text determines the values. */
module Json {
  datatype Style = Go | Browser

  datatype Field = Null | Text(text: string)

  // ----- Strings -----

  function HexDigit(d: nat): char
    requires d < 16
  {
    "0123456789abcdef"[d]
  }

  function Hex4(n: nat): (s: string)
    requires n < 0x1_0000
    ensures |s| == 4
  {
    [HexDigit(n / 4096), HexDigit(n / 256 % 16), HexDigit(n / 16 % 16), HexDigit(n % 16)]
  }

  /** Go also escapes what could end a script or a line in HTML. */
  predicate NeedsHex(style: Style, c: char) {
    c < ' ' || (style.Go? && (c == '<' || c == '>' || c == '&' || c as int == 0x2028 || c as int == 0x2029))
  }

  function Escaped(style: Style, c: char): (s: string)
    ensures s != "" && s[0] != '\"'
  {
    if c == '\"' then "\\\""
    else if c == '\\' then "\\\\"
    else if c == '\n' then "\\n"
    else if c == '\r' then "\\r"
    else if c == '\t' then "\\t"
    else if c as int == 8 then "\\b"
    else if c as int == 12 then "\\f"
    else if NeedsHex(style, c) then "\\u" + Hex4(c as int)
    else [c]
  }

  function Body(style: Style, s: string): string {
    if s == "" then "" else Escaped(style, s[0]) + Body(style, s[1..])
  }

  function Quoted(style: Style, s: string): string {
    "\"" + Body(style, s) + "\""
  }

  lemma SplitEqual(a: string, x: string, b: string, y: string)
    requires a + x == b + y && |a| == |b|
    ensures a == b && x == y
  {
    assert a == (a + x)[..|a|] && b == (b + y)[..|b|];
    assert x == (a + x)[|a|..] && y == (b + y)[|b|..];
  }

  lemma HexDigitInjective(d: nat, e: nat)
    requires d < 16 && e < 16 && HexDigit(d) == HexDigit(e)
    ensures d == e
  {
    assert forall i, j :: 0 <= i < j < 16 ==> "0123456789abcdef"[i] != "0123456789abcdef"[j];
  }

  lemma Hex4Injective(n: nat, m: nat)
    requires n < 0x1_0000 && m < 0x1_0000 && Hex4(n) == Hex4(m)
    ensures n == m
  {
    assert Hex4(n)[0] == Hex4(m)[0] && Hex4(n)[1] == Hex4(m)[1] && Hex4(n)[2] == Hex4(m)[2] && Hex4(n)[3] == Hex4(m)[3];
    HexDigitInjective(n / 4096, m / 4096);
    HexDigitInjective(n / 256 % 16, m / 256 % 16);
    HexDigitInjective(n / 16 % 16, m / 16 % 16);
    HexDigitInjective(n % 16, m % 16);
    FourDigits(n);
    FourDigits(m);
  }

  lemma FourDigits(n: nat)
    ensures n == 4096 * (n / 4096) + 256 * (n / 256 % 16) + 16 * (n / 16 % 16) + n % 16
  {
    assert n / 256 == 16 * (n / 4096) + n / 256 % 16;
    assert n / 16 == 16 * (n / 256) + n / 16 % 16;
  }

  /** The length of an escape can be read off its first two characters. */
  lemma EscapeLength(style: Style, c: char, x: string)
    ensures var s := Escaped(style, c) + x;
            && (s[0] != '\\' ==> |Escaped(style, c)| == 1)
            && (s[0] == '\\' ==>
                  && |s| > 1
                  && (s[1] == 'u' ==> |Escaped(style, c)| == 6)
                  && (s[1] != 'u' ==> |Escaped(style, c)| == 2))
  {
    var s := Escaped(style, c) + x;
    assert forall i :: 0 <= i < |Escaped(style, c)| ==> s[i] == Escaped(style, c)[i];
  }

  lemma EscapedInjective(style: Style, c: char, d: char)
    requires Escaped(style, c) == Escaped(style, d)
    ensures c == d
  {
    var s := Escaped(style, c);
    if |s| == 6 {
      assert s[2..] == Hex4(c as int) && s[2..] == Hex4(d as int);
      Hex4Injective(c as int, d as int);
    } else if |s| == 2 {
      assert s[1] == Escaped(style, d)[1];
    }
  }

  lemma EscapesAreReadable(style: Style, c: char, x: string, d: char, y: string)
    requires Escaped(style, c) + x == Escaped(style, d) + y
    ensures c == d && x == y
  {
    EscapeLength(style, c, x);
    EscapeLength(style, d, y);
    SplitEqual(Escaped(style, c), x, Escaped(style, d), y);
    EscapedInjective(style, c, d);
  }

  lemma FirstOfBody(style: Style, s: string, x: string)
    ensures s == "" ==> Body(style, s) + "\"" + x == "\"" + x
    ensures s != "" ==> (Body(style, s) + "\"" + x)[0] != '\"'
    ensures s != "" ==> Body(style, s) + "\"" + x == Escaped(style, s[0]) + (Body(style, s[1..]) + "\"" + x)
  {
    if s != "" {
      Regroup(Escaped(style, s[0]), Body(style, s[1..]), "\"", x);
    }
  }

  lemma Regroup(a: string, b: string, c: string, d: string)
    ensures a + b + c + d == a + (b + c + d)
    ensures a != "" ==> (a + b + c + d)[0] == a[0]
  {
  }

  lemma {:induction false} BodyIsReadable(style: Style, s: string, x: string, t: string, y: string)
    requires Body(style, s) + "\"" + x == Body(style, t) + "\"" + y
    ensures s == t && x == y
    decreases |s|
  {
    FirstOfBody(style, s, x);
    FirstOfBody(style, t, y);
    if s != "" && t != "" {
      EscapesAreReadable(style, s[0], Body(style, s[1..]) + "\"" + x, t[0], Body(style, t[1..]) + "\"" + y);
      BodyIsReadable(style, s[1..], x, t[1..], y);
      assert s == [s[0]] + s[1..] && t == [t[0]] + t[1..];
    } else if s == "" && t == "" {
      SplitEqual("\"", x, "\"", y);
    }
  }

  // ----- Values and objects -----

  function Encode(style: Style, v: Field): string {
    match v
    case Null => "null"
    case Text(s) => Quoted(style, s)
  }

  lemma FirstOfField(style: Style, v: Field, x: string)
    ensures (Encode(style, v) + x)[0] == if v.Null? then 'n' else '\"'
  {
  }

  lemma QuotedIsReadable(style: Style, s: string, x: string, t: string, y: string)
    requires Quoted(style, s) + x == Quoted(style, t) + y
    ensures s == t && x == y
  {
    var a, b := Body(style, s) + "\"" + x, Body(style, t) + "\"" + y;
    QuotedOpens(style, s, x, a);
    QuotedOpens(style, t, y, b);
    SplitEqual("\"", a, "\"", b);
    BodyIsReadable(style, s, x, t, y);
  }

  lemma QuotedOpens(style: Style, s: string, x: string, a: string)
    requires a == Body(style, s) + "\"" + x
    ensures Quoted(style, s) + x == "\"" + a
  {
  }

  lemma FieldIsReadable(style: Style, v: Field, x: string, w: Field, y: string)
    requires Encode(style, v) + x == Encode(style, w) + y
    ensures v == w && x == y
  {
    FirstOfField(style, v, x);
    FirstOfField(style, w, y);
    if v.Null? {
      SplitEqual("null", x, "null", y);
    } else {
      QuotedIsReadable(style, v.text, x, w.text, y);
    }
  }

  datatype Member = Member(name: string, field: Field)

  ghost predicate SameNames(a: seq<Member>, b: seq<Member>) {
    |a| == |b| && forall i :: 0 <= i < |a| ==> a[i].name == b[i].name
  }

  /** The members after the opening brace, in the given order. */
  function Members(style: Style, members: seq<Member>): string {
    if members == [] then "}"
    else
      ("\"" + members[0].name + "\":")
        + (Encode(style, members[0].field) + ((if |members| == 1 then "" else ",") + Members(style, members[1..])))
  }

  /** With fixed member names, the text of an object determines every value in it. */
  lemma {:induction false} MembersAreReadable(style: Style, a: seq<Member>, b: seq<Member>)
    requires SameNames(a, b) && Members(style, a) == Members(style, b)
    ensures a == b
    decreases |a|
  {
    if a != [] {
      var sep := if |a| == 1 then "" else ",";
      var rest, rest' := Members(style, a[1..]), Members(style, b[1..]);
      var header := "\"" + a[0].name + "\":";
      SplitEqual(header, Encode(style, a[0].field) + (sep + rest), header, Encode(style, b[0].field) + (sep + rest'));
      FieldIsReadable(style, a[0].field, sep + rest, b[0].field, sep + rest');
      SplitEqual(sep, rest, sep, rest');
      MembersAreReadable(style, a[1..], b[1..]);
      assert a == [a[0]] + a[1..] && b == [b[0]] + b[1..];
    }
  }

  lemma ObjectIsReadable(opening: string, style: Style, a: seq<Member>, b: seq<Member>)
    requires SameNames(a, b)
    ensures opening + Members(style, a) == opening + Members(style, b) <==> a == b
  {
    if opening + Members(style, a) == opening + Members(style, b) {
      SplitEqual(opening, Members(style, a), opening, Members(style, b));
      MembersAreReadable(style, a, b);
    }
  }
}
