/** Opaque cursors: an offset printed in decimal and wrapped in base64 (section 4 of RFC 4648), and the
    decoder as lenient as the one the service uses. */
module Cursor {
  import opened Basics

  type byte = x: int | 0 <= x < 256

  // ----- base64

  /** The character for a six-bit value. */
  function Char64(v: nat): char
    requires v < 64
  {
    if v < 26 then 'A' + v as char
    else if v < 52 then 'a' + (v - 26) as char
    else if v < 62 then '0' + (v - 52) as char
    else if v == 62 then '+' else '/'
  }

  /** The value of an alphabet character. */
  function Value64(c: char): Option<nat> {
    if 'A' <= c <= 'Z' then Some((c - 'A') as nat)
    else if 'a' <= c <= 'z' then Some(26 + (c - 'a') as nat)
    else if '0' <= c <= '9' then Some(52 + (c - '0') as nat)
    else if c == '+' then Some(62)
    else if c == '/' then Some(63)
    else None
  }

  lemma Value64OfChar64(v: nat)
    requires v < 64
    ensures Value64(Char64(v)) == Some(v) && Char64(v) != '='
  {
  }

  function Encode64(bs: seq<byte>): string {
    if bs == [] then ""
    else if |bs| == 1 then [Char64(bs[0] / 4), Char64(bs[0] % 4 * 16), '=', '=']
    else if |bs| == 2 then
      [Char64(bs[0] / 4), Char64(bs[0] % 4 * 16 + bs[1] / 16), Char64(bs[1] % 16 * 4), '=']
    else
      [Char64(bs[0] / 4), Char64(bs[0] % 4 * 16 + bs[1] / 16), Char64(bs[1] % 16 * 4 + bs[2] / 64), Char64(bs[2] % 64)]
      + Encode64(bs[3..])
  }

  /** The decoder's loop, from its state on: position in the group of four, bits left over, pad characters
      seen.  Characters outside the alphabet are skipped, and enough padding ends the input. */
  function Decode64(cs: string, quad: nat, left: nat, pads: nat): Option<seq<byte>>
    requires quad < 4 && left < 64 && (quad == 2 ==> left < 16) && (quad == 3 ==> left < 4)
  {
    if cs == [] then (if quad == 0 then Some([]) else None)
    else if cs[0] == '=' then
      if quad >= 2 && quad + pads + 1 >= 4 then Some([])
      else Decode64(cs[1..], quad, left, if quad >= 2 then pads + 1 else pads)
    else
      match Value64(cs[0])
      case None => Decode64(cs[1..], quad, left, pads)
      case Some(v) =>
        if v >= 64 then None
        else if quad == 0 then Decode64(cs[1..], 1, v, 0)
        else if quad == 1 then Prepend(left * 4 + v / 16, Decode64(cs[1..], 2, v % 16, 0))
        else if quad == 2 then Prepend(left * 16 + v / 4, Decode64(cs[1..], 3, v % 4, 0))
        else Prepend(left * 64 + v, Decode64(cs[1..], 0, 0, 0))
  }

  function Prepend(b: byte, rest: Option<seq<byte>>): Option<seq<byte>> {
    if rest.Some? then Some([b] + rest.value) else None
  }

  /** One alphabet character moves the decoder by six bits. */
  lemma OneChar(v: nat, rest: string, quad: nat, left: nat, pads: nat)
    requires v < 64 && quad < 4 && left < 64 && (quad == 2 ==> left < 16) && (quad == 3 ==> left < 4)
    ensures Decode64([Char64(v)] + rest, quad, left, pads) ==
            if quad == 0 then Decode64(rest, 1, v, 0)
            else if quad == 1 then Prepend(left * 4 + v / 16, Decode64(rest, 2, v % 16, 0))
            else if quad == 2 then Prepend(left * 16 + v / 4, Decode64(rest, 3, v % 4, 0))
            else Prepend(left * 64 + v, Decode64(rest, 0, 0, 0))
  {
    Value64OfChar64(v);
    assert ([Char64(v)] + rest)[1..] == rest;
    hide Char64, Value64;
  }

  /** A whole group of four characters is three bytes. */
  lemma FourChars(v0: nat, v1: nat, v2: nat, v3: nat, rest: string)
    requires v0 < 64 && v1 < 64 && v2 < 64 && v3 < 64
    ensures Decode64([Char64(v0), Char64(v1), Char64(v2), Char64(v3)] + rest, 0, 0, 0)
         == Prepend(v0 * 4 + v1 / 16, Prepend(v1 % 16 * 16 + v2 / 4, Prepend(v2 % 4 * 64 + v3, Decode64(rest, 0, 0, 0))))
  {
    hide Decode64, Char64, Prepend;
    OneChar(v3, rest, 3, v2 % 4, 0);
    OneChar(v2, [Char64(v3)] + rest, 2, v1 % 16, 0);
    OneChar(v1, [Char64(v2)] + ([Char64(v3)] + rest), 1, v0, 0);
    OneChar(v0, [Char64(v1)] + ([Char64(v2)] + ([Char64(v3)] + rest)), 0, 0, 0);
    assert [Char64(v0), Char64(v1), Char64(v2), Char64(v3)] + rest
        == [Char64(v0)] + ([Char64(v1)] + ([Char64(v2)] + ([Char64(v3)] + rest)));
  }

  lemma ThreeChars(v0: nat, v1: nat, v2: nat)
    requires v0 < 64 && v1 < 64 && v2 < 64
    ensures Decode64([Char64(v0), Char64(v1), Char64(v2), '='], 0, 0, 0)
         == Some([v0 * 4 + v1 / 16, v1 % 16 * 16 + v2 / 4])
  {
    assert Decode64("=", 3, v2 % 4, 0) == Some([]);
    hide Decode64, Char64;
    OneChar(v2, "=", 2, v1 % 16, 0);
    OneChar(v1, [Char64(v2)] + "=", 1, v0, 0);
    OneChar(v0, [Char64(v1)] + ([Char64(v2)] + "="), 0, 0, 0);
    var x: byte, y: byte := v0 * 4 + v1 / 16, v1 % 16 * 16 + v2 / 4;
    assert [x] + ([y] + []) == [x, y];
    assert [Char64(v0), Char64(v1), Char64(v2), '='] == [Char64(v0)] + ([Char64(v1)] + ([Char64(v2)] + "="));
  }

  lemma TwoChars(v0: nat, v1: nat)
    requires v0 < 64 && v1 < 64
    ensures Decode64([Char64(v0), Char64(v1), '=', '='], 0, 0, 0) == Some([v0 * 4 + v1 / 16])
  {
    assert "=="[1..] == "=";
    assert Decode64("=", 2, v1 % 16, 1) == Some([]);
    assert Decode64("==", 2, v1 % 16, 0) == Some([]);
    hide Decode64, Char64;
    OneChar(v1, "==", 1, v0, 0);
    OneChar(v0, [Char64(v1)] + "==", 0, 0, 0);
    var x: byte := v0 * 4 + v1 / 16;
    assert [x] + [] == [x];
    assert [Char64(v0), Char64(v1), '=', '='] == [Char64(v0)] + ([Char64(v1)] + "==");
  }

  /** Cutting bytes into sextets loses nothing. */
  lemma SextetsRejoin(a: byte, b: byte, c: byte)
    ensures a / 4 * 4 + (a % 4 * 16 + b / 16) / 16 == a
    ensures (a % 4 * 16 + b / 16) % 16 * 16 + (b % 16 * 4 + c / 64) / 4 == b
    ensures (b % 16 * 4 + c / 64) % 4 * 64 + c % 64 == c
  {
  }

  /** Three bytes come back from their four characters, whatever follows. */
  lemma OneGroup(a: byte, b: byte, c: byte, rest: string)
    ensures Decode64([Char64(a / 4), Char64(a % 4 * 16 + b / 16), Char64(b % 16 * 4 + c / 64), Char64(c % 64)] + rest, 0, 0, 0)
         == Prepend(a, Prepend(b, Prepend(c, Decode64(rest, 0, 0, 0))))
  {
    SextetsRejoin(a, b, c);
    hide Decode64, Char64, Prepend;
    FourChars(a / 4, a % 4 * 16 + b / 16, b % 16 * 4 + c / 64, c % 64, rest);
  }

  lemma LastTwo(a: byte, b: byte)
    ensures Decode64(Encode64([a, b]), 0, 0, 0) == Some([a, b])
  {
    var v0, v1, v2 := a / 4, a % 4 * 16 + b / 16, b % 16 * 4;
    assert Encode64([a, b]) == [Char64(v0), Char64(v1), Char64(v2), '='];
    SextetsRejoin(a, b, 0);
    assert v0 * 4 + v1 / 16 == a && v1 % 16 * 16 + v2 / 4 == b;
    hide Decode64, Char64, Encode64;
    ThreeChars(v0, v1, v2);
  }

  lemma LastOne(a: byte)
    ensures Decode64(Encode64([a]), 0, 0, 0) == Some([a])
  {
    var v0, v1 := a / 4, a % 4 * 16;
    assert Encode64([a]) == [Char64(v0), Char64(v1), '=', '='];
    SextetsRejoin(a, 0, 0);
    assert v0 * 4 + v1 / 16 == a;
    hide Decode64, Char64, Encode64;
    TwoChars(v0, v1);
  }

  lemma {:induction false} Base64RoundTrip(bs: seq<byte>)
    ensures Decode64(Encode64(bs), 0, 0, 0) == Some(bs)
  {
    if |bs| > 2 {
      Base64RoundTrip(bs[3..]);
      OneGroup(bs[0], bs[1], bs[2], Encode64(bs[3..]));
      assert bs == [bs[0]] + ([bs[1]] + ([bs[2]] + bs[3..]));
      hide Decode64, Char64;
    } else if |bs| == 2 {
      assert bs == [bs[0], bs[1]];
      LastTwo(bs[0], bs[1]);
      hide Decode64, Encode64;
    } else if |bs| == 1 {
      assert bs == [bs[0]];
      LastOne(bs[0]);
      hide Decode64, Encode64;
    }
  }

  // ----- decimal

  function Digits(n: nat): seq<byte> {
    if n < 10 then [48 + n] else Digits(n / 10) + [48 + n % 10]
  }

  predicate IsDigit(b: byte) {
    48 <= b <= 57
  }

  /** Digits, with single underscores allowed between them. */
  function ParseDigits(s: seq<byte>): Option<nat> {
    if s == [] || !IsDigit(s[|s| - 1]) then None
    else if |s| == 1 then Some(s[0] - 48)
    else
      var head := if s[|s| - 2] == 95 then s[..|s| - 2] else s[..|s| - 1];
      var rest := ParseDigits(head);
      if rest.Some? then Some(10 * rest.value + (s[|s| - 1] - 48)) else None
  }

  predicate IsSpace(b: byte) {
    9 <= b <= 13 || 28 <= b <= 32
  }

  function Strip(s: seq<byte>): seq<byte> {
    if s == [] then []
    else if IsSpace(s[0]) then Strip(s[1..])
    else if IsSpace(s[|s| - 1]) then Strip(s[..|s| - 1])
    else s
  }

  /** `int(text)` on ASCII text. */
  function ParseInt(text: seq<byte>): Option<int> {
    var s := Strip(text);
    if s == [] then None
    else if s[0] == 43 || s[0] == 45 then
      var r := ParseDigits(s[1..]);
      if r.None? then None
      else
        var magnitude: int := r.value;
        Some(if s[0] == 45 then -magnitude else magnitude)
    else
      var r := ParseDigits(s);
      if r.None? then None else Some(r.value)
  }

  lemma {:induction false} DigitsParse(n: nat)
    ensures ParseDigits(Digits(n)) == Some(n)
    ensures forall i | 0 <= i < |Digits(n)| :: IsDigit(Digits(n)[i])
    ensures |Digits(n)| > 0
  {
    if n < 10 {
    } else {
      DigitsParse(n / 10);
      var s := Digits(n);
      assert s[..|s| - 1] == Digits(n / 10);
      assert s[|s| - 2] == Digits(n / 10)[|Digits(n / 10)| - 1];
    }
  }

  /** Decimal printing then base64. */
  function EncodeCursor(offset: nat): string {
    Encode64(Digits(offset))
  }

  /** The offset a cursor stands for; an absent, empty or unreadable one stands for the beginning. */
  function DecodeCursor(cursor: Option<string>): int {
    if cursor.None? || cursor.value == "" || (exists c | c in cursor.value :: c >= 128 as char) then 0
    else
      var bytes := Decode64(cursor.value, 0, 0, 0);
      if bytes.None? || (exists b | b in bytes.value :: b >= 128) then 0
      else
        var n := ParseInt(bytes.value);
        if n.Some? then n.value else 0
  }

  lemma {:induction false} EncodedIsAscii(bs: seq<byte>)
    ensures forall c | c in Encode64(bs) :: c < 128 as char
    ensures bs != [] ==> Encode64(bs) != ""
  {
    if |bs| <= 2 {
    } else {
      EncodedIsAscii(bs[3..]);
    }
  }

  lemma CursorRoundTrip(offset: nat)
    ensures DecodeCursor(Some(EncodeCursor(offset))) == offset
  {
    DigitsParse(offset);
    Base64RoundTrip(Digits(offset));
    EncodedIsAscii(Digits(offset));
    assert Strip(Digits(offset)) == Digits(offset);
    hide Encode64, Decode64, Digits, ParseDigits;
  }

  // ----- cursors that the service did not make

  lemma NoCursor(c: char)
    requires c >= 128 as char
    ensures DecodeCursor(None) == 0 && DecodeCursor(Some("")) == 0
    ensures forall s: string | c in s :: DecodeCursor(Some(s)) == 0
  {
  }

  /** Whatever ASCII text a cursor wraps, it stands for the number in it, or for the beginning. */
  lemma CursorOfText(text: seq<byte>)
    requires forall b | b in text :: b < 128
    ensures DecodeCursor(Some(Encode64(text))) == match ParseInt(text) case None => 0 case Some(n) => n
  {
    Base64RoundTrip(text);
    EncodedIsAscii(text);
    hide Encode64, Decode64, ParseInt;
    if text == [] {
      assert ParseInt([]) == None by {
        EmptyIsNoNumber();
      }
    }
  }

  lemma EmptyIsNoNumber()
    ensures ParseInt([]) == None
  {
  }

  /** A sign is read, so a negative offset can be asked for. */
  lemma SignedCursor(n: nat)
    ensures DecodeCursor(Some(Encode64([45] + Digits(n)))) + n == 0
    ensures DecodeCursor(Some(Encode64([43] + Digits(n)))) == n
  {
    SignedNumber(45, n);
    SignedNumber(43, n);
    hide ParseInt, Encode64, DecodeCursor;
    assert forall b | b in [45] + Digits(n) || b in [43] + Digits(n) :: b < 128 by {
      DigitsParse(n);
    }
    CursorOfText([45] + Digits(n));
    CursorOfText([43] + Digits(n));
  }

  lemma SignedNumber(sign: byte, n: nat)
    requires sign in {43, 45}
    ensures ParseInt([sign] + Digits(n)).Some?
    ensures var m := ParseInt([sign] + Digits(n)).value; if sign == 45 then m + n == 0 else m == n
  {
    DigitsParse(n);
    var text := [sign] + Digits(n);
    assert text[1..] == Digits(n);
    assert IsDigit(Digits(n)[|Digits(n)| - 1]);
    assert text[|text| - 1] == Digits(n)[|Digits(n)| - 1];
    assert Strip(text) == text;
    hide Strip, ParseDigits, Digits;
  }

  lemma {:induction false} NumbersAreDigits(s: seq<byte>, b: byte)
    requires b in s && ParseDigits(s).Some?
    ensures IsDigit(b) || b == 95
    decreases |s|
  {
    var n := |s| - 1;
    if |s| == 1 || b == s[n] {
    } else if s[n - 1] == 95 {
      if b != s[n - 1] {
        assert s == s[..n - 1] + [s[n - 1], s[n]];
        NumbersAreDigits(s[..n - 1], b);
      }
    } else {
      assert s == s[..n] + [s[n]];
      NumbersAreDigits(s[..n], b);
    }
  }

  lemma {:induction false} StripKeeps(s: seq<byte>, b: byte)
    requires b in s && !IsSpace(b)
    ensures b in Strip(s)
    decreases |s|
  {
    if IsSpace(s[0]) {
      assert s == [s[0]] + s[1..];
      StripKeeps(s[1..], b);
    } else if IsSpace(s[|s| - 1]) {
      assert s == s[..|s| - 1] + [s[|s| - 1]];
      StripKeeps(s[..|s| - 1], b);
    }
  }

  lemma ParseStep(s: seq<byte>, head: seq<byte>)
    requires |s| >= 2 && IsDigit(s[|s| - 1])
    requires head == if s[|s| - 2] == 95 then s[..|s| - 2] else s[..|s| - 1]
    ensures ParseDigits(s)
         == if ParseDigits(head).Some? then Some(10 * ParseDigits(head).value + (s[|s| - 1] - 48)) else None
  {
  }

  /** A single underscore may stand between two digits, but not at the end. */
  lemma UnderscoreInNumber(s: seq<byte>, d: nat)
    requires s != [] && IsDigit(s[|s| - 1]) && d < 10
    ensures ParseDigits(s + [95, 48 + d]) == ParseDigits(s + [48 + d]) && ParseDigits(s + [95]) == None
  {
    hide ParseDigits;
    NoDigitAtEnd(s + [95]);
    var a, b := s + [95, 48 + d], s + [48 + d];
    assert a[..|a| - 2] == s && a[|a| - 2] == 95 && a[|a| - 1] == 48 + d;
    assert b[..|b| - 1] == s && b[|b| - 2] == s[|s| - 1] && b[|b| - 1] == 48 + d;
    ParseStep(a, s);
    ParseStep(b, s);
  }

  lemma NoDigitAtEnd(s: seq<byte>)
    requires s != [] && !IsDigit(s[|s| - 1])
    ensures ParseDigits(s) == None
  {
  }

  /** A cursor whose text holds any other character stands for the beginning. */
  lemma GarbageCursor(text: seq<byte>, b: byte)
    requires (forall x | x in text :: x < 128) && b in text
    requires !IsDigit(b) && !IsSpace(b) && b !in {43, 45, 95}
    ensures DecodeCursor(Some(Encode64(text))) == 0
  {
    hide Strip, Encode64, DecodeCursor, ParseDigits, IsDigit, IsSpace;
    CursorOfText(text);
    StripKeeps(text, b);
    var s := Strip(text);
    assert s == [s[0]] + s[1..];
    if ParseDigits(s).Some? {
      NumbersAreDigits(s, b);
    }
    if b in s[1..] && ParseDigits(s[1..]).Some? {
      NumbersAreDigits(s[1..], b);
    }
  }

  /** The decoder skips what is not in the alphabet and gives up on missing padding. */
  lemma KnownDecodings()
    ensures Decode64("NTA=", 0, 0, 0) == Some([53, 48]) == Decode64("N-T A=", 0, 0, 0)
    ensures Decode64("NTA", 0, 0, 0) == None && DecodeCursor(Some("NTA")) == 0
    ensures Decode64("NTA=NTA=", 0, 0, 0) == Some([53, 48])
  {
    var b: byte := 48;
    assert [b] + [] == [b] && [53] + [b] == [53, b];
    assert "A="[1..] == "=" && " A="[1..] == "A=" && "T A="[1..] == " A=" && "-T A="[1..] == "T A=";
    assert Decode64("A=", 2, 3, 0) == Some([48]) && Decode64(" A=", 2, 3, 0) == Some([48]);
    assert Decode64("-T A=", 1, 13, 0) == Decode64("T A=", 1, 13, 0) == Some([53, 48]);
    assert "N-T A="[1..] == "-T A=";
    assert "NTA="[1..] == "TA=" && "TA="[1..] == "A=";
    assert "A=NTA="[1..] == "=NTA=" && "TA=NTA="[1..] == "A=NTA=" && "NTA=NTA="[1..] == "TA=NTA=";
    assert Decode64("A=NTA=", 2, 3, 0) == Some([48]);
    assert "NTA"[1..] == "TA" && "TA"[1..] == "A" && "A"[1..] == "";
  }

  /** Test vectors of section 10 of RFC 4648, and the cursor after fifty documents. */
  lemma KnownEncodings()
    ensures Encode64([102]) == "Zg==" && Encode64([102, 111]) == "Zm8=" && Encode64([102, 111, 111]) == "Zm9v"
    ensures Encode64([251, 255, 254]) == "+//+"
    ensures EncodeCursor(50) == "NTA="
  {
    assert Digits(50) == [53, 48];
    assert Encode64([]) == "";
  }
}

/** `get_documents`: filtering, one page at an offset, and the walk over all pages. */
module Pagination {
  import opened Basics
  import opened Cursor

  datatype Row = Row(id: string, docType: string, confidence: real)

  datatype Page = Page(documents: seq<Row>, nextCursor: Option<string>, hasMore: bool, total: nat)

  datatype Outcome = Expired | BadOffset | Listed(page: Page)

  predicate Matches(r: Row, docType: string, minConfidence: real) {
    (docType == "" || r.docType == docType) && (minConfidence <= 0.0 || r.confidence >= minConfidence)
  }

  function Filter(rows: seq<Row>, docType: string, minConfidence: real): seq<Row> {
    if rows == [] then []
    else (if Matches(rows[0], docType, minConfidence) then [rows[0]] else []) + Filter(rows[1..], docType, minConfidence)
  }

  /** Row by row and in order: a type, if given, must be the row's, and a positive confidence is a minimum. */
  lemma {:induction false} FilterPieces(a: seq<Row>, b: seq<Row>, r: Row, docType: string, minConfidence: real)
    ensures Filter(a + b, docType, minConfidence) == Filter(a, docType, minConfidence) + Filter(b, docType, minConfidence)
    ensures Filter([r], docType, minConfidence)
         == if (docType != "" ==> r.docType == docType) && (minConfidence > 0.0 ==> r.confidence >= minConfidence)
            then [r] else []
  {
    if a == [] {
      assert a + b == b;
    } else {
      assert (a + b)[1..] == a[1..] + b;
      FilterPieces(a[1..], b, r, docType, minConfidence);
    }
  }

  /** OFFSET and LIMIT as the database applies them. */
  function Window<T>(s: seq<T>, offset: nat, limit: nat): seq<T> {
    s[Min(offset, |s|)..Min(offset + limit, |s|)]
  }

  /** The page of the matching rows `all` at `offset`. */
  function PageAt(all: seq<Row>, offset: nat, limit: nat): Page {
    Page(Window(all, offset, limit),
         if offset + limit < |all| then Some(EncodeCursor(offset + limit)) else None,
         offset + limit < |all|, |all|)
  }

  /** Asking for one row more than the limit tells whether anything is left. */
  lemma OneRowMore<T>(all: seq<T>, offset: nat, limit: nat)
    ensures var found := Window(all, offset, limit + 1);
            && (|found| > limit <==> offset + limit < |all|)
            && Window(all, offset, limit) == if |found| > limit then found[..limit] else found
  {
    var found := Window(all, offset, limit + 1);
    if offset + limit < |all| {
      assert found == all[offset..offset + limit + 1];
      assert found[..limit] == all[offset..offset + limit];
    }
  }

  /** What a page says about the matching rows. */
  ghost predicate Tells(page: Page, all: seq<Row>, offset: nat, limit: nat) {
    && page.total == |all| && (page.hasMore <==> offset + limit < |all|)
    && |page.documents| == Min(limit, |all| - Min(offset, |all|))
    && (forall k | 0 <= k < |page.documents| :: offset + k < |all| && page.documents[k] == all[offset + k])
    && (page.nextCursor.Some? <==> page.hasMore)
    && (page.hasMore ==> DecodeCursor(page.nextCursor) == offset + limit)
  }

  lemma PageTells(all: seq<Row>, offset: nat, limit: nat)
    ensures Tells(PageAt(all, offset, limit), all, offset, limit)
  {
    hide DecodeCursor, EncodeCursor;
    CursorRoundTrip(offset + limit);
  }

  /** `rows` are the job's rows in the order the database returns them. */
  method GetDocuments(rows: seq<Row>, expired: bool, cursor: Option<string>, limit: nat, docType: string,
                      minConfidence: real)
    returns (r: Outcome)
    ensures expired ==> r == Expired
    ensures !expired && DecodeCursor(cursor) < 0 ==> r == BadOffset
    ensures !expired && DecodeCursor(cursor) >= 0 ==>
              r == Listed(PageAt(Filter(rows, docType, minConfidence), DecodeCursor(cursor), limit))
    // At most `limit` matching rows from the offset on, their total, and a cursor exactly if more follow.
    ensures r.Listed? ==>
              DecodeCursor(cursor) >= 0 && Tells(r.page, Filter(rows, docType, minConfidence), DecodeCursor(cursor), limit)
  {
    if expired {
      return Expired;
    }
    var matching := Filter(rows, docType, minConfidence);
    var offset := DecodeCursor(cursor);
    var total := |matching|;
    if offset < 0 {
      return BadOffset;
    }
    var found := Window(matching, offset, limit + 1);
    OneRowMore(matching, offset, limit);
    PageTells(matching, offset, limit);
    hide Tells;
    hide DecodeCursor, EncodeCursor, Filter, Window;
    var hasMore := |found| > limit;
    var nextCursor := None;
    if hasMore {
      found := found[..limit];
      nextCursor := Some(EncodeCursor(offset + limit));
    }
    return Listed(Page(found, nextCursor, hasMore, total));
  }

  function Concat(pages: seq<seq<Row>>): seq<Row> {
    if pages == [] then [] else pages[0] + Concat(pages[1..])
  }

  /** The pages a client sees that follows `next_cursor` until there is none. */
  ghost function Walk(all: seq<Row>, cursor: Option<string>, limit: nat): (pages: seq<seq<Row>>)
    requires limit >= 1 && DecodeCursor(cursor) >= 0
    decreases if DecodeCursor(cursor) <= |all| then |all| - DecodeCursor(cursor) else 0
  {
    var page := PageAt(all, DecodeCursor(cursor), limit);
    if page.nextCursor.None? then [page.documents]
    else
      CursorRoundTrip(DecodeCursor(cursor) + limit);
      [page.documents] + Walk(all, page.nextCursor, limit)
  }

  /** What a walk that starts at `offset` shows: all rows from there, in order, on full pages except
      possibly the last, and no empty page unless there is nothing to show. */
  ghost predicate ShowsFrom(all: seq<Row>, offset: nat, limit: nat, pages: seq<seq<Row>>)
    requires offset <= |all|
  {
    && |pages| > 0
    && Concat(pages) == all[offset..]
    && (forall i | 0 <= i < |pages| - 1 :: |pages[i]| == limit)
    && (offset < |all| ==> forall i | 0 <= i < |pages| :: pages[i] != [])
  }

  lemma OnePageMore(all: seq<Row>, offset: nat, limit: nat, rest: seq<seq<Row>>)
    requires limit >= 1 && offset + limit < |all| && ShowsFrom(all, offset + limit, limit, rest)
    ensures ShowsFrom(all, offset, limit, [all[offset..offset + limit]] + rest)
  {
    var pages := [all[offset..offset + limit]] + rest;
    assert pages[1..] == rest;
    assert all[offset..] == all[offset..offset + limit] + all[offset + limit..];
    assert forall i | 0 < i < |pages| :: pages[i] == rest[i - 1];
  }

  lemma LastPage(all: seq<Row>, offset: nat, limit: nat)
    requires offset <= |all| <= offset + limit
    ensures ShowsFrom(all, offset, limit, [all[offset..]])
  {
    assert [all[offset..]][1..] == [];
    assert all[offset..] + [] == all[offset..];
  }

  lemma {:induction false} WalkFrom(all: seq<Row>, cursor: Option<string>, limit: nat)
    requires limit >= 1 && 0 <= DecodeCursor(cursor) <= |all|
    ensures ShowsFrom(all, DecodeCursor(cursor), limit, Walk(all, cursor, limit))
    decreases |all| - DecodeCursor(cursor)
  {
    var offset := DecodeCursor(cursor);
    hide DecodeCursor, EncodeCursor, ShowsFrom;
    if offset + limit < |all| {
      var next := Some(EncodeCursor(offset + limit));
      CursorRoundTrip(offset + limit);
      WalkFrom(all, next, limit);
      OnePageMore(all, offset, limit, Walk(all, next, limit));
    } else {
      LastPage(all, offset, limit);
      assert all[offset..] == Window(all, offset, limit);
    }
  }

  /** For every limit of at least one, following the cursors from the first page ends and shows every
      matching row exactly once and in order, on full pages except possibly the last. */
  lemma {:induction false} WalkShowsEverything(rows: seq<Row>, docType: string, minConfidence: real, limit: nat)
    requires limit >= 1
    ensures ShowsFrom(Filter(rows, docType, minConfidence), 0, limit,
                      Walk(Filter(rows, docType, minConfidence), None, limit))
  {
    WalkFrom(Filter(rows, docType, minConfidence), None, limit);
  }
}
