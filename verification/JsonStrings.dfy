/** The string literals of cJSON.c. */
module JsonStrings {
  // Text is a sequence of bytes (characters below 256) without the terminating NUL.

  /** Outcome of reading from a text: the value and what is left, a syntax error, or
      an input outside the model, where a \u escape or the backslash at the end of a
      literal takes in the characters that close it. */
  datatype Parsed<T> = Ok(value: T, rest: string) | Fail | Outside

  const BACKSPACE := '\U{8}'
  const FORMFEED := '\U{c}'

  /** The contents of a C string. */
  predicate Plain(s: string) {
    forall i :: 0 <= i < |s| ==> 0 < s[i] as int < 256
  }

  // ---- hexadecimal ------------------------------------------------------------------

  predicate IsHex(c: char) {
    '0' <= c <= '9' || 'A' <= c <= 'F' || 'a' <= c <= 'f'
  }

  function HexValue(c: char): (v: nat)
    requires IsHex(c)
    ensures v < 16
  {
    if '0' <= c <= '9' then c as int - '0' as int
    else if 'A' <= c <= 'F' then 10 + c as int - 'A' as int
    else 10 + c as int - 'a' as int
  }

  /** "%x" of one digit. */
  function HexDigit(v: nat): (c: char)
    requires v < 16
    ensures IsHex(c) && HexValue(c) == v && c != '\"' && c != '\\'
  {
    if v < 10 then (v + '0' as int) as char else (v - 10 + 'a' as int) as char
  }

  predicate FourHex(s: string) {
    |s| >= 4 && IsHex(s[0]) && IsHex(s[1]) && IsHex(s[2]) && IsHex(s[3])
  }

  /** parse_hex4: anything but four hexadecimal digits reads as 0. */
  function Hex4(s: string): (v: nat)
    ensures v < 0x10000
  {
    if FourHex(s) then ((HexValue(s[0]) * 16 + HexValue(s[1])) * 16 + HexValue(s[2])) * 16 + HexValue(s[3]) else 0
  }

  /** The four characters an escape skips are inside the literal. */
  predicate FourInside(s: string) {
    |s| >= 4 && Inside(s[0]) && Inside(s[1]) && Inside(s[2]) && Inside(s[3])
  }

  predicate Inside(c: char) {
    c != '\"' && c != '\\'
  }

  lemma HexInside(s: string)
    requires FourHex(s)
    ensures FourInside(s)
  {
  }

  // ---- UTF-8 ---------------------------------------------------------------------------

  /** The bytes parse_string stores for a code point: len - 1 continuation bytes,
      lowest six bits last, under a first byte with the mark of that length. */
  function Encode(uc: nat): (b: string)
    requires uc < 0x110000
    ensures 1 <= |b| <= 4
  {
    if uc < 0x80 then [uc as char]
    else if uc < 0x800 then [(0xC0 + uc / 64) as char, Low(uc)]
    else if uc < 0x10000 then [(0xE0 + uc / 64 / 64) as char, Low(uc / 64), Low(uc)]
    else [(0xF0 + uc / 64 / 64 / 64) as char, Low(uc / 64 / 64), Low(uc / 64), Low(uc)]
  }

  /** ((uc | 0x80) & 0xBF) as a byte. */
  function Low(uc: nat): char {
    (0x80 + uc % 64) as char
  }

  /** The bit operations of the source in arithmetic: a continuation byte, ... */
  lemma LowBits(uc: bv32)
    ensures ((uc | 0x80) & 0xBF) & 0xFF == 0x80 + (uc & 0x3F)
  {
  }

  /** ... the marked first bytes, ... */
  lemma MarkTwo(uc: bv8)
    requires uc < 0x20
    ensures uc | 0xC0 == 0xC0 + uc
  {
  }

  lemma MarkThree(uc: bv8)
    requires uc < 0x10
    ensures uc | 0xE0 == 0xE0 + uc
  {
  }

  lemma MarkFour(uc: bv8)
    requires uc < 0x08
    ensures uc | 0xF0 == 0xF0 + uc
  {
  }

  /** ... and the two halves of a surrogate pair. */
  lemma PairBits(hi: bv32, lo: bv32)
    ensures ((hi & 0x3FF) << 10) & (lo & 0x3FF) == 0
    ensures ((hi & 0x3FF) << 10) | (lo & 0x3FF) == ((hi & 0x3FF) << 10) + (lo & 0x3FF)
  {
  }

  /** Section 3 of RFC 3629: b is the UTF-8 form of scalar cp. */
  predicate IsUtf8(b: string, cp: nat) {
    if |b| == 1 then b[0] as int == cp && cp < 0x80
    else if |b| == 2 then
      && b[0] as int / 32 == 6 && b[1] as int / 64 == 2
      && cp == b[0] as int % 32 * 64 + b[1] as int % 64 && 0x80 <= cp
    else if |b| == 3 then
      && b[0] as int / 16 == 14 && b[1] as int / 64 == 2 && b[2] as int / 64 == 2
      && cp == (b[0] as int % 16 * 64 + b[1] as int % 64) * 64 + b[2] as int % 64
      && 0x800 <= cp && !(0xD800 <= cp <= 0xDFFF)
    else if |b| == 4 then
      && b[0] as int / 8 == 30 && b[1] as int / 64 == 2 && b[2] as int / 64 == 2 && b[3] as int / 64 == 2
      && cp == ((b[0] as int % 8 * 64 + b[1] as int % 64) * 64 + b[2] as int % 64) * 64 + b[3] as int % 64
      && 0x10000 <= cp < 0x110000
    else false
  }

  predicate IsScalar(cp: nat) {
    cp < 0x110000 && !(0xD800 <= cp <= 0xDFFF)
  }

  lemma EncodeIsUtf8(cp: nat)
    requires IsScalar(cp)
    ensures IsUtf8(Encode(cp), cp)
  {
  }

  /** The UTF-8 form is unique, so Encode gives the one RFC 3629 prescribes. */
  lemma Utf8Unique(a: string, b: string, cp: nat)
    requires IsUtf8(a, cp) && IsUtf8(b, cp)
    ensures a == b
  {
    assert |a| == |b|;
    SameByte(a[0], b[0]);
    if |a| >= 2 { SameByte(a[1], b[1]); }
    if |a| >= 3 { SameByte(a[2], b[2]); }
    if |a| == 4 { SameByte(a[3], b[3]); }
  }

  lemma SameByte(a: char, b: char)
    ensures a as int == b as int <==> a == b
  {
  }

  // ---- escaping ------------------------------------------------------------------------

  /** print_string_ptr on one byte. */
  function Escape(c: char): (e: string)
    requires c as int < 256
    ensures 1 <= |e| <= 6
  {
    if c == '\"' || c == '\\' then ['\\', c]
    else if c == BACKSPACE then "\\b"
    else if c == FORMFEED then "\\f"
    else if c == '\n' then "\\n"
    else if c == '\r' then "\\r"
    else if c == '\t' then "\\t"
    else if c < ' ' then "\\u00" + [HexDigit(c as int / 16), HexDigit(c as int % 16)]
    else [c]
  }

  function EscapeAll(s: string): string
    requires Plain(s)
  {
    if s == [] then [] else Escape(s[0]) + EscapeAll(s[1..])
  }

  function Quoted(s: string): string
    requires Plain(s)
  {
    "\"" + EscapeAll(s) + "\""
  }

  // ---- unescaping ------------------------------------------------------------------------

  /** What a simple escape stands for. */
  function Simple(c: char): char {
    match c
    case 'b' => BACKSPACE
    case 'f' => FORMFEED
    case 'n' => '\n'
    case 'r' => '\r'
    case 't' => '\t'
    case _ => c
  }

  /** The case 'u' of parse_string on the text behind \u: the bytes stored and how
      many characters behind the \u are consumed. */
  function CodePoint(s: string): (r: Parsed<string>)
    ensures r.Ok? ==> |r.rest| <= |s| - 4 && |r.value| <= 4 && |s| >= 4
    ensures r.Ok? ==> |r.value| <= |s| - |r.rest|
  {
    if !FourInside(s) then Outside
    else
      var uc := Hex4(s);
      if 0xDC00 <= uc <= 0xDFFF || uc == 0 then Ok("", s[4..])
      else if 0xD800 <= uc <= 0xDBFF then
        if |s| < 6 || s[4] != '\\' || s[5] != 'u' then Ok("", s[4..])
        else if !FourInside(s[6..]) then Outside
        else
          var uc2 := Hex4(s[6..]);
          if uc2 < 0xDC00 || uc2 > 0xDFFF then Ok("", s[10..])
          else Ok(Encode(0x10000 + uc % 0x400 * 0x400 + uc2 % 0x400), s[10..])
      else Ok(Encode(uc), s[4..])
  }

  /** The second loop of parse_string on the text behind the opening quote. An
      unterminated literal ends with the text. */
  function Unescape(s: string): (r: Parsed<string>)
    ensures r.Ok? ==> |r.rest| <= |s| && (s != [] ==> |r.rest| < |s|)
    ensures !r.Fail?
    decreases |s|
  {
    if s == [] then Ok("", "")
    else if s[0] == '\"' then Ok("", s[1..])
    else if s[0] != '\\' then Prepend([s[0]], Unescape(s[1..]))
    else if |s| == 1 then Outside
    else if s[1] != 'u' then Prepend([Simple(s[1])], Unescape(s[2..]))
    else
      var u := CodePoint(s[2..]);
      if u.Ok? then Prepend(u.value, Unescape(u.rest)) else Outside
  }

  function Prepend(t: string, r: Parsed<string>): (q: Parsed<string>)
    ensures q.Ok? <==> r.Ok?
    ensures r.Ok? ==> q.rest == r.rest && q.value == t + r.value
    ensures !r.Ok? ==> q == r
  {
    if r.Ok? then Ok(t + r.value, r.rest) else r
  }

  /** The first loop of parse_string: the size of the buffer less one. */
  function CountBody(s: string): (n: nat)
    ensures n <= |s|
    decreases |s|
  {
    if s == [] || s[0] == '\"' then 0
    else if s[0] == '\\' then 1 + CountBody(if |s| >= 2 then s[2..] else "")
    else 1 + CountBody(s[1..])
  }

  /** For literals inside the model the counted size covers what is stored. */
  lemma {:induction false} CountCovers(s: string)
    requires Unescape(s).Ok?
    ensures |Unescape(s).value| <= CountBody(s)
    decreases |s|
  {
    if s != [] && s[0] != '\"' {
      if s[0] != '\\' {
        CountCovers(s[1..]);
      } else if s[1] != 'u' {
        CountCovers(s[2..]);
      } else {
        var u := CodePoint(s[2..]);
        CountCovers(u.rest);
        CountSkips(s, u.rest);
      }
    }
  }

  lemma CountPlain(s: string)
    requires s != [] && s[0] != '\"' && s[0] != '\\'
    ensures CountBody(s) == 1 + CountBody(s[1..])
  {
  }

  lemma CountFour(s: string)
    requires FourInside(s)
    ensures CountBody(s) == 4 + CountBody(s[4..])
  {
    CountPlain(s);
    CountPlain(s[1..]);
    assert s[1..][1..] == s[2..];
    CountPlain(s[2..]);
    assert s[2..][1..] == s[3..];
    CountPlain(s[3..]);
    assert s[3..][1..] == s[4..];
  }

  lemma CountSkips(s: string, rest: string)
    requires |s| >= 2 && s[0] == '\\' && s[1] == 'u' && CodePoint(s[2..]).Ok? && rest == CodePoint(s[2..]).rest
    ensures CountBody(s) >= |CodePoint(s[2..]).value| + CountBody(rest)
  {
    var h := s[2..];
    CountFour(h);
    if rest != h[4..] {
      assert h[4..][2..] == h[6..];
      CountFour(h[6..]);
      assert h[6..][4..] == h[10..];
    }
  }

  // ---- \u escapes -----------------------------------------------------------------------

  /** \uXXXX for a non-zero scalar of the basic plane gives exactly its UTF-8 form. */
  lemma BasicEscape(h: string, tail: string)
    requires FourHex(h) && |h| == 4 && IsScalar(Hex4(h)) && Hex4(h) != 0
    ensures exists b :: IsUtf8(b, Hex4(h)) && Unescape("\\u" + h + tail) == Prepend(b, Unescape(tail))
  {
    var t := "\\u" + h + tail;
    assert t[2..] == h + tail && (h + tail)[4..] == tail;
    assert FourHex(h + tail) && Hex4(h + tail) == Hex4(h);
    EncodeIsUtf8(Hex4(h));
    assert IsUtf8(Encode(Hex4(h)), Hex4(h));
  }

  /** The surrogate pair of section 7 of RFC 8259 for a scalar beyond the basic
      plane gives exactly its UTF-8 form. */
  lemma PairEscape(h: string, l: string, cp: nat, tail: string)
    requires FourHex(h) && |h| == 4 && FourHex(l) && |l| == 4 && 0x10000 <= cp < 0x110000
    requires Hex4(h) == 0xD800 + (cp - 0x10000) / 0x400 && Hex4(l) == 0xDC00 + (cp - 0x10000) % 0x400
    ensures exists b :: IsUtf8(b, cp) && Unescape("\\u" + h + "\\u" + l + tail) == Prepend(b, Unescape(tail))
  {
    hide Encode, IsUtf8, CodePoint, Hex4, FourHex;
    var s := h + "\\u" + l + tail;
    assert ("\\u" + h + "\\u" + l + tail)[2..] == s;
    PairText(h, l, tail);
    PairCode(s);
    Halves(cp);
    EncodeIsUtf8(cp);
    assert IsUtf8(Encode(cp), cp);
  }

  lemma Halves(cp: nat)
    requires 0x10000 <= cp < 0x110000
    ensures var hi, lo := 0xD800 + (cp - 0x10000) / 0x400, 0xDC00 + (cp - 0x10000) % 0x400;
            && 0xD800 <= hi <= 0xDBFF && 0xDC00 <= lo <= 0xDFFF
            && 0x10000 + hi % 0x400 * 0x400 + lo % 0x400 == cp
  {
  }

  lemma PairCode(s: string)
    requires |s| >= 10 && FourHex(s) && FourHex(s[6..]) && s[4] == '\\' && s[5] == 'u'
    requires 0xD800 <= Hex4(s) <= 0xDBFF && 0xDC00 <= Hex4(s[6..]) <= 0xDFFF
    ensures 0x10000 + Hex4(s) % 0x400 * 0x400 + Hex4(s[6..]) % 0x400 < 0x110000
    ensures CodePoint(s) == Ok(Encode(0x10000 + Hex4(s) % 0x400 * 0x400 + Hex4(s[6..]) % 0x400), s[10..])
  {
    hide Encode, Hex4, FourHex, FourInside;
    HexInside(s);
    HexInside(s[6..]);
  }

  /** Four characters of the literal that are not all hexadecimal stand for nothing, and
      a high half followed by such an escape takes it along. */
  lemma MalformedEscape(h: string, l: string, tail: string)
    requires |h| == 4 && FourInside(h) && !FourHex(h) && |l| == 4 && FourHex(l) && 0xD800 <= Hex4(l) <= 0xDBFF
    ensures Unescape("\\u" + h + tail) == Unescape(tail)
    ensures Unescape("\\u" + l + "\\u" + h + tail) == Unescape(tail)
  {
    hide Encode;
    var t, w := "\\u" + h + tail, "\\u" + l + "\\u" + h + tail;
    assert t[2..] == h + tail && (h + tail)[4..] == tail;
    assert CodePoint(h + tail) == Ok("", tail);
    var v := l + "\\u" + h + tail;
    assert w[2..] == v && v[6..] == h + tail && v[10..] == tail;
    assert v == l + ("\\u" + h + tail);
    assert CodePoint(v) == Ok("", tail);
    Nothing(Unescape(tail));
  }

  lemma Nothing(r: Parsed<string>)
    ensures Prepend("", r) == r
  {
    if r.Ok? { assert "" + r.value == r.value; }
  }

  lemma SameHex(h: string, tail: string)
    requires |h| == 4
    ensures Hex4(h + tail) == Hex4(h) && (FourHex(h + tail) <==> FourHex(h)) && (FourInside(h + tail) <==> FourInside(h))
  {
  }

  lemma PairText(h: string, l: string, tail: string)
    requires |h| == 4 && |l| == 4
    ensures var s := h + "\\u" + l + tail;
            && |s| >= 10 && s[4] == '\\' && s[5] == 'u' && s[10..] == tail
            && Hex4(s) == Hex4(h) && (FourHex(s) <==> FourHex(h)) && (FourInside(s) <==> FourInside(h))
            && Hex4(s[6..]) == Hex4(l) && (FourHex(s[6..]) <==> FourHex(l)) && (FourInside(s[6..]) <==> FourInside(l))
  {
    hide Hex4, FourHex, FourInside;
    var s := h + "\\u" + l + tail;
    assert s == h + ("\\u" + l + tail) && s[6..] == l + tail;
    SameHex(h, "\\u" + l + tail);
    SameHex(l, tail);
  }

  // ---- the literals of RFC 8259 -----------------------------------------------------------

  /** A character of section 7 of RFC 8259: a byte as it is, a two-character escape, or a \u
      with four digits. */
  datatype Char = Raw(c: char) | Short(c: char) | Code(h: string)

  predicate CharOk(k: Char) {
    match k
    case Raw(c) => ' ' <= c && c as int < 256 && Inside(c)
    case Short(c) => c in {'\"', '\\', '/', 'b', 'f', 'n', 'r', 't'}
    case Code(h) => |h| == 4 && FourHex(h)
  }

  predicate CharsOk(cs: seq<Char>) {
    forall i :: 0 <= i < |cs| ==> CharOk(cs[i])
  }

  /** What the parser takes: any byte but the quote and the backslash, an escape of any
      other letter, any four characters behind a \u that do not end the literal. */
  predicate CharTaken(k: Char) {
    match k
    case Raw(c) => Inside(c)
    case Short(c) => c != 'u'
    case Code(h) => |h| == 4 && FourInside(h)
  }

  predicate CharsTaken(cs: seq<Char>) {
    forall i :: 0 <= i < |cs| ==> CharTaken(cs[i])
  }

  lemma OkTaken(cs: seq<Char>)
    requires CharsOk(cs)
    ensures CharsTaken(cs)
  {
    forall i | 0 <= i < |cs|
      ensures CharTaken(cs[i])
    {
      assert CharOk(cs[i]);
    }
  }

  function CharText(k: Char): string {
    match k
    case Raw(c) => [c]
    case Short(c) => ['\\', c]
    case Code(h) => "\\u" + h
  }

  function CharsText(cs: seq<Char>): string {
    if cs == [] then "" else CharText(cs[0]) + CharsText(cs[1..])
  }

  /** The table of that section. */
  function ShortMeans(c: char): char {
    if c == 'b' then 0x8 as char
    else if c == 't' then 0x9 as char
    else if c == 'n' then 0xA as char
    else if c == 'f' then 0xC as char
    else if c == 'r' then 0xD as char
    else c
  }

  predicate High(u: nat) {
    0xD800 <= u <= 0xDBFF
  }

  predicate LowHalf(u: nat) {
    0xDC00 <= u <= 0xDFFF
  }

  /** What one \u stands for, or two that follow each other: the UTF-8 form of the scalar.
      The code drops \u0000, which a C string cannot hold, and halves without their
      other half. */
  function CodeMeans(u: nat): string
    requires u < 0x10000 && !High(u)
  {
    if u == 0 || LowHalf(u) then "" else Encode(u)
  }

  function PairMeans(u: nat, l: nat): string
    requires High(u) && l < 0x10000
  {
    if LowHalf(l) then Encode(0x10000 + (u - 0xD800) * 0x400 + (l - 0xDC00)) else ""
  }

  function Denote(cs: seq<Char>): string
    decreases |cs|
  {
    if cs == [] then ""
    else
      match cs[0]
      case Raw(c) => [c] + Denote(cs[1..])
      case Short(c) => [ShortMeans(c)] + Denote(cs[1..])
      case Code(h) =>
        if !High(Hex4(h)) then CodeMeans(Hex4(h)) + Denote(cs[1..])
        else if |cs| > 1 && cs[1].Code? then PairMeans(Hex4(h), Hex4(cs[1].h)) + Denote(cs[2..])
        else Denote(cs[1..])
  }

  /** Every literal the parser takes, those of the grammar among them, is read to its end,
      whatever follows, as what it denotes. */
  lemma LiteralMeans(cs: seq<Char>, rest: string)
    requires CharsTaken(cs)
    ensures Unescape(CharsText(cs) + ("\"" + rest)) == Ok(Denote(cs), rest)
  {
    LiteralReads(cs, "\"" + rest);
    assert ("\"" + rest)[1..] == rest;
  }

  /** One without a closing quote ends with the text. */
  lemma OpenLiteral(cs: seq<Char>)
    requires CharsTaken(cs)
    ensures Unescape(CharsText(cs)) == Ok(Denote(cs), "")
  {
    LiteralReads(cs, "");
    assert CharsText(cs) + "" == CharsText(cs);
  }

  lemma {:induction false} LiteralReads(cs: seq<Char>, q: string)
    requires CharsTaken(cs) && Closes(q)
    ensures Unescape(CharsText(cs) + q) == Ok(Denote(cs), PastQuote(q))
    decreases |cs|
  {
    hide Unescape, CharsText, CodeMeans, PairMeans, Hex4, High, CharTaken, PastQuote;
    if cs == [] {
      LiteralEnd(q);
    } else {
      assert CharsTaken(cs[1..]);
      LiteralReads(cs[1..], q);
      if !cs[0].Code? {
        PlainRead(cs, q);
      } else if !High(Hex4(cs[0].h)) {
        CodeFirst(cs, q);
      } else if |cs| > 1 && cs[1].Code? {
        LiteralReads(cs[2..], q);
        PairRead(cs, q);
      } else {
        HighFirst(cs, q);
      }
    }
  }

  /** The end of a literal: its quote or the end of the text. */
  predicate Closes(q: string) {
    q == "" || q[0] == '\"'
  }

  function PastQuote(q: string): string {
    if q == "" then "" else q[1..]
  }

  lemma LiteralEnd(q: string)
    requires Closes(q)
    ensures Unescape(CharsText([]) + q) == Ok("", PastQuote(q))
  {
    assert CharsText([]) + q == q;
  }

  lemma FirstText(cs: seq<Char>, q: string)
    requires cs != []
    ensures CharsText(cs) + q == CharText(cs[0]) + (CharsText(cs[1..]) + q)
  {
  }

  lemma PlainRead(cs: seq<Char>, q: string)
    requires CharsTaken(cs) && cs != [] && !cs[0].Code?
    ensures Unescape(CharsText(cs) + q)
            == Prepend([if cs[0].Raw? then cs[0].c else ShortMeans(cs[0].c)], Unescape(CharsText(cs[1..]) + q))
  {
    var tail := CharsText(cs[1..]) + q;
    FirstText(cs, q);
    assert CharTaken(cs[0]);
    if cs[0].Raw? {
      assert ([cs[0].c] + tail)[1..] == tail;
    } else {
      assert (['\\', cs[0].c] + tail)[2..] == tail;
    }
  }

  lemma CodeRead(h: string, tail: string, b: string, after: string)
    requires CodePoint(h + tail) == Ok(b, after)
    ensures Unescape(CharText(Code(h)) + tail) == Prepend(b, Unescape(after))
  {
    hide CodePoint;
    assert ("\\u" + h + tail)[2..] == h + tail;
  }

  lemma CodeFirst(cs: seq<Char>, q: string)
    requires CharsTaken(cs) && cs != [] && cs[0].Code? && !High(Hex4(cs[0].h))
    ensures Unescape(CharsText(cs) + q) == Prepend(CodeMeans(Hex4(cs[0].h)), Unescape(CharsText(cs[1..]) + q))
  {
    hide Unescape, CodePoint, CodeMeans, Hex4, FourInside, High;
    var h, tail := cs[0].h, CharsText(cs[1..]) + q;
    assert CharTaken(cs[0]);
    FirstText(cs, q);
    CodeAlone(h, tail);
    CodeRead(h, tail, CodeMeans(Hex4(h)), tail);
  }

  /** A high half on its own. */
  lemma HighFirst(cs: seq<Char>, q: string)
    requires CharsTaken(cs) && cs != [] && cs[0].Code? && High(Hex4(cs[0].h)) && (|cs| > 1 ==> !cs[1].Code?)
    requires Closes(q)
    ensures Unescape(CharsText(cs) + q) == Unescape(CharsText(cs[1..]) + q)
  {
    hide Unescape, CodePoint, Hex4, FourInside, High;
    var h, tail := cs[0].h, CharsText(cs[1..]) + q;
    assert CharTaken(cs[0]) && CharsTaken(cs[1..]);
    FirstText(cs, q);
    NoCode(cs[1..], q);
    HighAlone(h, tail);
    CodeRead(h, tail, "", tail);
    Nothing(Unescape(tail));
  }

  lemma PairRead(cs: seq<Char>, q: string)
    requires CharsTaken(cs) && |cs| > 1 && cs[0].Code? && cs[1].Code? && High(Hex4(cs[0].h))
    ensures Unescape(CharsText(cs) + q) == Prepend(PairMeans(Hex4(cs[0].h), Hex4(cs[1].h)), Unescape(CharsText(cs[2..]) + q))
  {
    hide Unescape, CodePoint, PairMeans, Hex4, FourInside, High, CharsText, Prepend;
    var h, l, tail, more := cs[0].h, cs[1].h, CharsText(cs[1..]) + q, CharsText(cs[2..]) + q;
    assert CharTaken(cs[0]) && CharTaken(cs[1]) && cs[1..][1..] == cs[2..];
    FirstText(cs, q);
    FirstText(cs[1..], q);
    CodePair(h, l, more);
    assert h + tail == h + "\\u" + l + more;
    CodeRead(h, tail, PairMeans(Hex4(h), Hex4(l)), more);
  }

  lemma CodeAlone(h: string, tail: string)
    requires FourInside(h) && |h| == 4 && !High(Hex4(h))
    ensures CodePoint(h + tail) == Ok(CodeMeans(Hex4(h)), tail)
  {
    hide Encode, Hex4, FourInside;
    SameHex(h, tail);
    assert (h + tail)[4..] == tail;
  }

  /** A text that does not go on with \u. */
  predicate Unpaired(s: string) {
    |s| < 2 || s[0] != '\\' || s[1] != 'u'
  }

  lemma NoCode(cs: seq<Char>, q: string)
    requires CharsTaken(cs) && (cs != [] ==> !cs[0].Code?) && Closes(q)
    ensures Unpaired(CharsText(cs) + q)
  {
    if cs != [] { assert CharTaken(cs[0]); }
  }

  lemma HighAlone(h: string, tail: string)
    requires FourInside(h) && |h| == 4 && High(Hex4(h)) && Unpaired(tail)
    ensures CodePoint(h + tail) == Ok("", tail)
  {
    hide Encode, Hex4, FourInside;
    SameHex(h, tail);
    assert (h + tail)[4..] == tail;
    assert |h + tail| >= 6 ==> (h + tail)[4] == tail[0] && (h + tail)[5] == tail[1];
  }

  lemma CodePair(h: string, l: string, tail: string)
    requires FourInside(h) && |h| == 4 && FourInside(l) && |l| == 4 && High(Hex4(h))
    ensures CodePoint(h + "\\u" + l + tail) == Ok(PairMeans(Hex4(h), Hex4(l)), tail)
  {
    hide Encode, Hex4, FourInside;
    var s := h + "\\u" + l + tail;
    PairText(h, l, tail);
    if LowHalf(Hex4(l)) {
      assert Hex4(h) % 0x400 == Hex4(h) - 0xD800 && Hex4(l) % 0x400 == Hex4(l) - 0xDC00;
    }
  }

  /** Nothing else is taken: what was read is such a literal. */
  lemma LiteralTaken(s: string) returns (cs: seq<Char>, q: string)
    requires Unescape(s).Ok?
    ensures CharsTaken(cs) && Closes(q) && s == CharsText(cs) + q
    ensures Unescape(s) == Ok(Denote(cs), PastQuote(q))
  {
    hide *;
    cs, q := Characters(s);
    LiteralReads(cs, q);
  }

  lemma {:induction false} Characters(s: string) returns (cs: seq<Char>, q: string)
    requires Unescape(s).Ok?
    ensures CharsTaken(cs) && Closes(q) && s == CharsText(cs) + q
    decreases |s|
  {
    hide CharTaken, CharText, Unescape;
    if Closes(s) {
      cs, q := [], s;
      assert CharsText([]) + s == s;
    } else {
      var first, more := FirstCharacters(s);
      var tail;
      tail, q := Characters(more);
      cs := first + tail;
      TextJoin(first, tail);
      assert CharsText(first) + (CharsText(tail) + q) == CharsText(first) + CharsText(tail) + q;
    }
  }

  lemma {:induction false} TextJoin(a: seq<Char>, b: seq<Char>)
    ensures CharsText(a + b) == CharsText(a) + CharsText(b)
  {
    if a == [] {
      assert a + b == b;
    } else {
      assert (a + b)[1..] == a[1..] + b;
      TextJoin(a[1..], b);
      assert CharText(a[0]) + (CharsText(a[1..]) + CharsText(b)) == CharsText(a) + CharsText(b);
    }
  }

  /** The next character, or two that are read together. */
  lemma FirstCharacters(s: string) returns (first: seq<Char>, more: string)
    requires Unescape(s).Ok? && !Closes(s)
    ensures CharsTaken(first) && s == CharsText(first) + more && |more| < |s| && Unescape(more).Ok?
  {
    hide Encode, Hex4, FourInside, CharsText;
    if s[0] != '\\' {
      first, more := [Raw(s[0])], s[1..];
    } else if s[1] != 'u' {
      first, more := [Short(s[1])], s[2..];
    } else {
      first, more := CodeTaken(s);
    }
    if |first| == 1 { OneText(first[0]); }
  }

  lemma OneText(k: Char)
    ensures CharsText([k]) == CharText(k)
  {
    assert [k][1..] == [] && CharText(k) + "" == CharText(k);
  }

  lemma CodeTaken(s: string) returns (first: seq<Char>, more: string)
    requires |s| >= 2 && s[0] == '\\' && s[1] == 'u' && Unescape(s).Ok?
    ensures CharsTaken(first) && s == CharsText(first) + more && |more| < |s| && Unescape(more).Ok?
  {
    hide FourInside, CharsText, Unescape, CodePoint;
    UnescapeCode(s);
    CodeSpan(s[2..]);
    more := CodePoint(s[2..]).rest;
    var h := s[2..6];
    assert s[2..][..4] == h && s[2..][4..] == s[6..];
    FourTaken(s[2..]);
    OneText(Code(h));
    if more == s[6..] {
      first := [Code(h)];
    } else {
      assert s[2..][6..] == s[8..];
      FourTaken(s[8..]);
      var l := s[8..12];
      assert s[8..][..4] == l && s[2..][10..] == s[12..];
      first := [Code(h), Code(l)];
      TextJoin([Code(h)], [Code(l)]);
      OneText(Code(l));
      assert [Code(h)] + [Code(l)] == first;
      assert s == "\\u" + h + ("\\u" + l) + s[12..];
    }
  }

  lemma CodeSpan(t: string)
    requires CodePoint(t).Ok?
    ensures FourInside(t) && |t| >= 4
    ensures var r := CodePoint(t).rest;
            r == t[4..] || (|t| >= 10 && t[4] == '\\' && t[5] == 'u' && FourInside(t[6..]) && r == t[10..])
  {
    hide Encode, Hex4;
  }

  lemma UnescapeCode(s: string)
    requires |s| >= 2 && s[0] == '\\' && s[1] == 'u' && Unescape(s).Ok?
    ensures CodePoint(s[2..]).Ok? && Unescape(CodePoint(s[2..]).rest).Ok?
  {
    hide CodePoint;
  }

  lemma FourTaken(s: string)
    requires FourInside(s)
    ensures |s| >= 4 && FourInside(s[..4])
  {
  }

  /** How print_string_ptr spells a character. */
  function Spell(c: char): Char {
    if c == '\"' || c == '\\' then Short(c)
    else if c == BACKSPACE then Short('b')
    else if c == FORMFEED then Short('f')
    else if c == '\n' then Short('n')
    else if c == '\r' then Short('r')
    else if c == '\t' then Short('t')
    else if c < ' ' then Code("00" + [HexDigit(c as int / 16), HexDigit(c as int % 16)])
    else Raw(c)
  }

  function Spelled(s: string): seq<Char> {
    if s == [] then [] else [Spell(s[0])] + Spelled(s[1..])
  }

  /** What it prints is a literal of the grammar that denotes the string. */
  lemma {:induction false} SpelledIs(s: string)
    requires Plain(s)
    ensures CharsOk(Spelled(s)) && CharsText(Spelled(s)) == EscapeAll(s) && Denote(Spelled(s)) == s
  {
    if s != [] {
      SpelledIs(s[1..]);
      SpellIs(s[0]);
      var cs := Spelled(s);
      assert cs[1..] == Spelled(s[1..]) && s == [s[0]] + s[1..];
    }
  }

  lemma SpellIs(c: char)
    requires 0 < c as int < 256
    ensures CharOk(Spell(c)) && CharText(Spell(c)) == Escape(c)
    ensures match Spell(c)
            case Raw(d) => d == c
            case Short(d) => ShortMeans(d) == c
            case Code(h) => !High(Hex4(h)) && CodeMeans(Hex4(h)) == [c]
  {
  }

  /** Unescaping what escaping produced gives the string back and stops behind the
      closing quote. */
  lemma StringRoundTrip(x: string, rest: string)
    requires Plain(x)
    ensures Unescape(EscapeAll(x) + "\"" + rest) == Ok(x, rest)
  {
    SpelledIs(x);
    OkTaken(Spelled(x));
    LiteralMeans(Spelled(x), rest);
    assert EscapeAll(x) + "\"" + rest == EscapeAll(x) + ("\"" + rest);
  }
}
