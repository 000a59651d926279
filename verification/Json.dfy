/** cJSON trees, their texts and the parser of cJSON.c. */
module Json {
  // A number is a 32-bit integer, or a real where the text has a fraction, an exponent or
  // more than 32 bits; the rounding of valuedouble is not modelled, and such numbers are
  // read but not printed.

  import opened Chains
  import opened JsonStrings

  /** cJSON items; an array or object leads to the first of a chain of children. */
  datatype Json =
    | Null
    | False
    | True
    | Number(n: int)
    | Real(x: real)
    | Str(s: string)
    | Array(items: Nodes)
    | Object(members: Members)

  datatype Nodes = NoNode | Node(value: Json, next: Nodes)

  datatype Members = NoMember | Member(name: string, value: Json, next: Members)

  predicate Int32(n: int) {
    -0x8000_0000 <= n < 0x8000_0000
  }

  /** What the printers take. */
  predicate Tree(v: Json) {
    match v
    case Number(n) => Int32(n)
    case Real(_) => false
    case Str(s) => Plain(s)
    case Array(items) => TreeItems(items)
    case Object(members) => TreeMembers(members)
    case _ => true
  }

  predicate TreeItems(c: Nodes) {
    c.Node? ==> Tree(c.value) && TreeItems(c.next)
  }

  predicate TreeMembers(c: Members) {
    c.Member? ==> Plain(c.name) && Tree(c.value) && TreeMembers(c.next)
  }

  // ---- numbers -----------------------------------------------------------------------

  predicate IsDigit(c: char) {
    '0' <= c <= '9'
  }

  function Digit(d: nat): (c: char)
    requires d < 10
    ensures IsDigit(c)
  {
    ('0' as int + d) as char
  }

  function DigitValue(c: char): (d: nat)
    requires IsDigit(c)
    ensures d < 10
  {
    c as int - '0' as int
  }

  function Decimal(n: nat): (t: string)
    ensures t != []
  {
    if n < 10 then [Digit(n)] else Decimal(n / 10) + [Digit(n % 10)]
  }

  /** "%d" */
  function IntText(n: int): (t: string)
    ensures t != []
  {
    if n < 0 then "-" + Decimal(-n) else Decimal(n)
  }

  /** The digit loop of parse_number. */
  function ReadDigits(s: string, n: nat): (r: (nat, string))
    ensures |r.1| <= |s|
  {
    if s != [] && IsDigit(s[0]) then ReadDigits(s[1..], n * 10 + DigitValue(s[0])) else (n, s)
  }

  /** A zero, or digits that start with no zero, or both. */
  function ReadWhole(s: string): (r: (nat, string))
    ensures |r.1| <= |s| && (s != [] && IsDigit(s[0]) ==> |r.1| < |s|)
  {
    var t := if s != [] && s[0] == '0' then s[1..] else s;
    if t != [] && '1' <= t[0] <= '9' then ReadDigits(t, 0) else (0, t)
  }

  /** The loop over the digits of a fraction goes on with the number read so far; the
      second component is how many there are. */
  function ReadFraction(s: string, n: nat): (r: (nat, nat, string))
    ensures |r.2| <= |s| && (r.1 > 0 ==> |r.2| < |s|)
  {
    if |s| >= 2 && s[0] == '.' && IsDigit(s[1]) then
      var (m, t) := ReadDigits(s[1..], n);
      (m, |s| - 1 - |t|, t)
    else (n, 0, s)
  }

  /** The exponent with its sign. */
  function ReadExponent(s: string): (r: (int, string))
    ensures |r.1| <= |s|
  {
    if s == [] || (s[0] != 'e' && s[0] != 'E') then (0, s)
    else if |s| > 1 && s[1] == '+' then
      var (e, t) := ReadDigits(s[2..], 0);
      (e, t)
    else if |s| > 1 && s[1] == '-' then
      var (e, t) := ReadDigits(s[2..], 0);
      (-(e as int), t)
    else
      var (e, t) := ReadDigits(s[1..], 0);
      (e, t)
  }

  function Pow10(k: int): (p: real)
    ensures p > 0.0
    decreases if k < 0 then -k else k
  {
    if k == 0 then 1.0 else if k > 0 then 10.0 * Pow10(k - 1) else Pow10(k + 1) / 10.0
  }

  /** The item for digits n with a sign, scaled by a power of ten. */
  function Scaled(minus: bool, n: nat, k: int, whole: bool): Json {
    var v := if minus then -(n as int) else n as int;
    if whole && Int32(v) then Number(v) else Real(v as real * Pow10(k))
  }

  /** parse_number */
  function ParseNumber(s: string): (r: Parsed<Json>)
    requires s != [] && (s[0] == '-' || IsDigit(s[0]))
    ensures r.Ok? && |r.rest| < |s|
  {
    var (n, s1) := ReadWhole(if s[0] == '-' then s[1..] else s);
    var (m, scale, s2) := ReadFraction(s1, n);
    var (e, s3) := ReadExponent(s2);
    Ok(Scaled(s[0] == '-', m, e - scale, |s3| == |s1|), s3)
  }

  // ---- printing ----------------------------------------------------------------------

  function Tabs(n: int): string {
    if n <= 0 then "" else "\t" + Tabs(n - 1)
  }

  /** print_value: the text of a tree at some depth, formatted or not. */
  function Print(v: Json, depth: nat, fmt: bool): (t: string)
    requires Tree(v)
    ensures t != []
  {
    match v
    case Null => "null"
    case False => "false"
    case True => "true"
    case Number(n) => IntText(n)
    case Str(s) => Quoted(s)
    case Array(items) => if items.NoNode? then "[]" else "[" + PrintItems(items, depth + 1, fmt) + "]"
    case Object(members) =>
      if members.NoMember? then "{" + (if fmt then "\n" + Tabs(depth - 1) else "") + "}"
      else "{" + (if fmt then "\n" else "") + PrintMembers(members, depth + 1, fmt) + (if fmt then Tabs(depth) else "") + "}"
  }

  function PrintItems(c: Nodes, depth: nat, fmt: bool): string
    requires TreeItems(c)
  {
    if c.NoNode? then ""
    else Print(c.value, depth, fmt) + Comma(c.next, fmt) + PrintItems(c.next, depth, fmt)
  }

  function Comma(next: Nodes, fmt: bool): string {
    if next.NoNode? then "" else if fmt then ", " else ","
  }

  function PrintMembers(c: Members, depth: nat, fmt: bool): string
    requires TreeMembers(c)
  {
    if c.NoMember? then ""
    else Before(c.name, depth, fmt) + Print(c.value, depth, fmt) + After(c.next, fmt) + PrintMembers(c.next, depth, fmt)
  }

  function Before(name: string, depth: nat, fmt: bool): string
    requires Plain(name)
  {
    (if fmt then Tabs(depth) else "") + Quoted(name) + (if fmt then ":\t" else ":")
  }

  function After(next: Members, fmt: bool): string {
    (if next.Member? then "," else "") + (if fmt then "\n" else "")
  }

  // ---- parsing -----------------------------------------------------------------------

  /** skip: whitespace is everything up to the blank. */
  function Skip(s: string): (r: string)
    ensures |r| <= |s|
  {
    if s != [] && s[0] <= ' ' then Skip(s[1..]) else s
  }

  function Starts(s: string, c: char): bool {
    s != [] && s[0] == c
  }

  /** The strncmp tests of parse_value. */
  predicate SaysNull(s: string) {
    |s| >= 4 && s[0] == 'n' && s[1] == 'u' && s[2] == 'l' && s[3] == 'l'
  }

  predicate SaysFalse(s: string) {
    |s| >= 5 && s[0] == 'f' && s[1] == 'a' && s[2] == 'l' && s[3] == 's' && s[4] == 'e'
  }

  predicate SaysTrue(s: string) {
    |s| >= 4 && s[0] == 't' && s[1] == 'r' && s[2] == 'u' && s[3] == 'e'
  }

  /** parse_value */
  function ParseValue(s: string): (r: Parsed<Json>)
    ensures r.Ok? ==> |r.rest| < |s|
    decreases |s|, 1
  {
    if SaysNull(s) then Ok(Null, s[4..])
    else if SaysFalse(s) then Ok(False, s[5..])
    else if SaysTrue(s) then Ok(True, s[4..])
    else if s == [] then Fail
    else if s[0] == '\"' then
      var r := Unescape(s[1..]);
      if r.Ok? then Ok(Str(r.value), r.rest) else Outside
    else if s[0] == '-' || IsDigit(s[0]) then ParseNumber(s)
    else if s[0] == '[' then
      var t := Skip(s[1..]);
      if Starts(t, ']') then Ok(Array(NoNode), t[1..])
      else
        var r := ParseItems(t);
        if r.Ok? then Ok(Array(r.value), r.rest) else if r.Fail? then Fail else Outside
    else if s[0] == '{' then
      var t := Skip(s[1..]);
      if Starts(t, '}') then Ok(Object(NoMember), t[1..])
      else
        var r := ParseMembers(t);
        if r.Ok? then Ok(Object(r.value), r.rest) else if r.Fail? then Fail else Outside
    else Fail
  }

  /** The rest of parse_array from the first element on. */
  function ParseItems(s: string): (r: Parsed<Nodes>)
    ensures r.Ok? ==> |r.rest| < |s|
    decreases |s|, 2
  {
    var v := ParseValue(s);
    if v.Fail? then Fail else if v.Outside? then Outside
    else
      var t := Skip(v.rest);
      if Starts(t, ',') then
        var r := ParseItems(Skip(t[1..]));
        if r.Ok? then Ok(Node(v.value, r.value), r.rest) else r
      else if Starts(t, ']') then Ok(Node(v.value, NoNode), t[1..])
      else Fail
  }

  /** The rest of parse_object from the first name on. */
  function ParseMembers(s: string): (r: Parsed<Members>)
    ensures r.Ok? ==> |r.rest| < |s|
    decreases |s|, 2
  {
    if !Starts(s, '\"') then Fail
    else
      var k := Unescape(s[1..]);
      if k.Outside? then Outside
      else
        var t := Skip(k.rest);
        if !Starts(t, ':') then Fail
        else
          var v := ParseValue(Skip(t[1..]));
          if v.Fail? then Fail else if v.Outside? then Outside
          else
            var u := Skip(v.rest);
            if Starts(u, ',') then
              var r := ParseMembers(Skip(u[1..]));
              if r.Ok? then Ok(Member(k.value, v.value, r.value), r.rest) else r
            else if Starts(u, '}') then Ok(Member(k.value, v.value, NoMember), u[1..])
            else Fail
  }

  /** cJSON_ParseWithOpts */
  function Parse(text: string, whole: bool): Parsed<Json> {
    var r := ParseValue(Skip(text));
    if r.Ok? && whole then
      var end := Skip(r.rest);
      if end == [] then Ok(r.value, end) else Fail
    else r
  }

  // ---- digits ----------------------------------------------------------------------------

  predicate Digits(s: string) {
    forall i :: 0 <= i < |s| ==> IsDigit(s[i])
  }

  /** What a string of digits adds up to behind n. */
  ghost function Value(s: string, n: nat): nat {
    if s == [] then n else Value(s[..|s| - 1], n) * 10 + if IsDigit(s[|s| - 1]) then DigitValue(s[|s| - 1]) else 0
  }

  lemma {:induction false} ReadValue(a: string, b: string, n: nat)
    requires Digits(a)
    ensures ReadDigits(a + b, n) == ReadDigits(b, Value(a, n))
    decreases |a|
  {
    if a == [] {
      assert a + b == b;
    } else {
      var p, c := a[..|a| - 1], a[|a| - 1];
      ReadValue(p, [c] + b, n);
      assert a + b == p + ([c] + b);
      assert ([c] + b)[1..] == b;
    }
  }

  lemma {:induction false} DecimalValue(n: nat)
    ensures Digits(Decimal(n)) && Value(Decimal(n), 0) == n
    ensures n > 0 ==> '1' <= Decimal(n)[0] <= '9'
  {
    if n >= 10 {
      DecimalValue(n / 10);
      assert Decimal(n)[..|Decimal(n)| - 1] == Decimal(n / 10);
    } else {
      assert Decimal(n)[..0] == [];
    }
  }

  /** What may follow a number without becoming part of it. */
  ghost predicate Delimited(rest: string) {
    rest != [] ==> !IsDigit(rest[0]) && rest[0] != '.' && rest[0] != 'e' && rest[0] != 'E'
  }

  lemma ReadStops(rest: string, n: nat)
    requires rest == [] || !IsDigit(rest[0])
    ensures ReadDigits(rest, n) == (n, rest)
  {
  }

  lemma NothingBehind(rest: string, n: nat)
    requires Delimited(rest)
    ensures ReadFraction(rest, n) == (n, 0, rest) && ReadExponent(rest) == (0, rest)
  {
  }

  /** Reading the digits of m back. */
  lemma ReadDecimal(m: nat, rest: string)
    requires Delimited(rest)
    ensures ReadDigits(Decimal(m) + rest, 0) == (m, rest)
    ensures IsDigit(Decimal(m)[0]) && (m > 0 ==> '1' <= Decimal(m)[0] <= '9') && (m == 0 ==> Decimal(m) == "0")
  {
    DecimalValue(m);
    ReadValue(Decimal(m), rest, 0);
    ReadStops(rest, m);
  }

  lemma NumberRoundTrip(n: int, rest: string)
    requires Int32(n) && Delimited(rest)
    ensures var t := IntText(n) + rest;
            && t != [] && (t[0] == '-' || IsDigit(t[0]))
            && ParseNumber(t) == Ok(Number(n), rest)
  {
    hide ReadDigits, ReadFraction, ReadExponent, Decimal, Pow10;
    var m := if n < 0 then -n else n;
    var t := IntText(n) + rest;
    ReadDecimal(m, rest);
    NothingBehind(rest, m);
    if n < 0 {
      assert t[1..] == Decimal(m) + rest;
    } else if n == 0 {
      assert t[1..] == rest;
    }
  }

  // ---- what a number stands for ------------------------------------------------------------

  /** A number of section 6 of RFC 8259: sign, integer, fraction, and the exponent behind
      its mark. */
  datatype Literal = Literal(minus: bool, whole: string, frac: string, mark: string, exp: string)

  predicate WellFormed(l: Literal) {
    && Digits(l.whole) && l.whole != [] && (l.whole[0] == '0' ==> |l.whole| == 1)
    && Digits(l.frac) && Digits(l.exp)
    && (l.mark == "" <==> l.exp == "") && l.mark in {"", "e", "E", "e+", "E+", "e-", "E-"}
  }

  function Text(l: Literal): string {
    (if l.minus then "-" else "") + (l.whole + (Fraction(l) + (l.mark + l.exp)))
  }

  function Fraction(l: Literal): string {
    if l.frac == "" then "" else "." + l.frac
  }

  ghost function Exponent(l: Literal): int {
    if l.mark == "e-" || l.mark == "E-" then -(Value(l.exp, 0) as int) else Value(l.exp, 0)
  }

  ghost function Denotes(l: Literal): real {
    (if l.minus then -1.0 else 1.0)
    * (Value(l.whole, 0) as real + Value(l.frac, 0) as real * Pow10(-|l.frac|)) * Pow10(Exponent(l))
  }

  /** An integer without fraction and exponent and within 32 bits, or else the real it
      denotes. */
  ghost function NumberItem(l: Literal): Json {
    var v: int := if l.minus then -(Value(l.whole, 0) as int) else Value(l.whole, 0);
    if l.frac == "" && l.mark == "" && Int32(v) then Number(v) else Real(Denotes(l))
  }

  /** What the parser takes: behind a sign the integer part may be missing, it may start with
      a zero, and the exponent may have no digits. */
  predicate NumberTaken(l: Literal) {
    && Digits(l.whole) && (l.whole == "" ==> l.minus) && (|l.whole| > 1 && l.whole[0] == '0' ==> l.whole[1] != '0')
    && Digits(l.frac) && Digits(l.exp)
    && (l.mark == "" ==> l.exp == "") && l.mark in {"", "e", "E", "e+", "E+", "e-", "E-"}
  }

  /** What may follow it without becoming part of it. */
  ghost predicate Ends(l: Literal, rest: string) {
    && Delimited(rest)
    && (rest != [] && l.exp == "" && (l.mark == "e" || l.mark == "E") ==> rest[0] != '+' && rest[0] != '-')
  }

  /** Every number the parser takes, those of the grammar among them, is read to its end,
      whatever follows, as what it denotes. */
  lemma NumberDenotes(l: Literal, rest: string)
    requires NumberTaken(l) && Ends(l, rest)
    ensures var t := Text(l) + rest;
            t != [] && (t[0] == '-' || IsDigit(t[0])) && ParseNumber(t) == Ok(NumberItem(l), rest)
  {
    hide ReadDigits, ReadFraction, ReadExponent, Value, Pow10, Digits, Text, ParseNumber, Scaled, NumberItem;
    NumberParts(l, rest);
    ScaledItem(l);
  }

  lemma ScaledItem(l: Literal)
    requires NumberTaken(l)
    ensures Scaled(l.minus, Value(l.frac, Value(l.whole, 0)), Exponent(l) - |l.frac|, l.frac == "" && l.mark == "")
            == NumberItem(l)
  {
    hide Value, Pow10, Digits;
    Scaling(l, Exponent(l));
    NoDigits(Value(l.whole, 0));
  }

  /** What parse_number finds of it. */
  lemma NumberParts(l: Literal, rest: string)
    requires NumberTaken(l) && Ends(l, rest)
    ensures var t := Text(l) + rest;
            && t != [] && (t[0] == '-' || IsDigit(t[0]))
            && ParseNumber(t) == Ok(Scaled(l.minus, Value(l.frac, Value(l.whole, 0)), Exponent(l) - |l.frac|,
                                           l.frac == "" && l.mark == ""), rest)
  {
    hide ReadWhole, ReadFraction, ReadExponent, Value, Digits, Scaled, Exponent;
    var tail := Fraction(l) + (l.mark + l.exp + rest);
    TextParts(l, rest);
    WholeStart(l);
    TailStart(l, rest);
    WholeRead(l.whole, tail);
    FractionRead(l, Value(l.whole, 0), rest);
    ExponentRead(l, rest);
  }

  lemma TextParts(l: Literal, rest: string)
    requires NumberTaken(l)
    ensures var t := Text(l) + rest; var s1 := l.whole + (Fraction(l) + (l.mark + l.exp + rest));
            t != [] && if l.minus then t[0] == '-' && t[1..] == s1 else t == s1
  {
    hide Digits;
    var s1 := l.whole + (Fraction(l) + (l.mark + l.exp + rest));
    assert Text(l) + rest == (if l.minus then "-" else "") + s1;
    if l.minus { assert ("-" + s1)[1..] == s1; } else { assert "" + s1 == s1; }
  }

  lemma WholeStart(l: Literal)
    requires NumberTaken(l)
    ensures l.whole == "" || IsDigit(l.whole[0])
  {
  }

  lemma TailStart(l: Literal, rest: string)
    requires NumberTaken(l) && Ends(l, rest)
    ensures var end := l.mark + l.exp + rest; var tail := Fraction(l) + end;
            && (tail != [] ==> !IsDigit(tail[0])) && (end != [] ==> !IsDigit(end[0]) && end[0] != '.')
            && |rest| <= |end| <= |tail| && (|rest| == |tail| <==> l.frac == "" && l.mark == "")
  {
  }

  /** The integer part: a zero, the digit loop, or both. */
  lemma WholeRead(w: string, tail: string)
    requires Digits(w) && (|w| > 1 && w[0] == '0' ==> w[1] != '0') && (tail != [] ==> !IsDigit(tail[0]))
    ensures ReadWhole(w + tail) == (Value(w, 0), tail)
  {
    hide ReadDigits, Value, ReadWhole;
    if w == "" {
      assert w + tail == tail;
      NoDigits(0);
      NoZero(tail);
    } else if w[0] == '0' {
      assert (w + tail)[1..] == w[1..] + tail;
      ZeroFirst(w + tail);
      LeadingZero(w);
      DigitsRead(w[1..], tail);
    } else {
      NoZero(w + tail);
      DigitsRead(w, tail);
    }
  }

  /** The digit loop, entered on another digit than a zero. */
  function Loop(t: string): (nat, string) {
    if t != [] && '1' <= t[0] <= '9' then ReadDigits(t, 0) else (0, t)
  }

  lemma NoZero(t: string)
    requires t == [] || t[0] != '0'
    ensures ReadWhole(t) == Loop(t)
  {
    hide ReadDigits;
  }

  lemma ZeroFirst(t: string)
    requires t != [] && t[0] == '0'
    ensures ReadWhole(t) == Loop(t[1..])
  {
    hide ReadDigits;
  }

  lemma DigitsRead(d: string, tail: string)
    requires Digits(d) && (d != "" ==> d[0] != '0') && (tail != [] ==> !IsDigit(tail[0]))
    ensures Loop(d + tail) == (Value(d, 0), tail)
  {
    hide ReadDigits, Value;
    if d == "" {
      assert d + tail == tail;
      NoDigits(0);
    } else {
      ReadValue(d, tail, 0);
      ReadStops(tail, Value(d, 0));
    }
  }

  lemma LeadingZero(w: string)
    requires Digits(w) && w != [] && w[0] == '0'
    ensures Value(w, 0) == Value(w[1..], 0)
  {
    ReadValue(w, "", 0);
    ReadValue(w[1..], "", 0);
    assert w + "" == w && w[1..] + "" == w[1..];
  }

  lemma FractionRead(l: Literal, n: nat, rest: string)
    requires NumberTaken(l) && Ends(l, rest)
    ensures var end := l.mark + l.exp + rest;
            ReadFraction(Fraction(l) + end, n) == (Value(l.frac, n), |l.frac|, end)
  {
    hide ReadDigits, Value;
    var end := l.mark + l.exp + rest;
    TailStart(l, rest);
    if l.frac != "" {
      assert ("." + l.frac + end)[1..] == l.frac + end;
      ReadValue(l.frac, end, n);
      ReadStops(end, Value(l.frac, n));
    } else {
      NoDigits(n);
      assert "" + end == end;
    }
  }

  lemma NoDigits(n: nat)
    ensures Value("", n) == n
  {
  }

  lemma ExponentRead(l: Literal, rest: string)
    requires NumberTaken(l) && Ends(l, rest)
    ensures ReadExponent(l.mark + l.exp + rest) == (Exponent(l), rest)
  {
    hide ReadDigits, Value;
    var end := l.mark + l.exp + rest;
    if l.mark == "" {
      NoDigits(0);
      assert end == rest;
    } else {
      assert end[|l.mark|..] == l.exp + rest;
      ReadValue(l.exp, rest, 0);
      ReadStops(rest, Value(l.exp, 0));
    }
  }

  // ---- powers of ten ----------------------------------------------------------------------

  lemma Pow10Up(k: int)
    ensures Pow10(k + 1) == 10.0 * Pow10(k)
  {
  }

  lemma {:induction false} Pow10Add(a: int, b: nat)
    ensures Pow10(a + b) == Pow10(a) * Pow10(b)
  {
    hide Pow10;
    if b == 0 {
      PowZero();
    } else {
      Pow10Add(a, b - 1);
      Pow10Up(a + b - 1);
      Pow10Up(b - 1);
      TenTimes(Pow10(a), Pow10(b - 1));
    }
  }

  lemma TenTimes(x: real, y: real)
    ensures 10.0 * (x * y) == x * (10.0 * y)
  {
  }

  /** Digits read on top of n. */
  lemma {:induction false} ValueOn(s: string, n: nat)
    requires Digits(s)
    ensures Value(s, n) as real == n as real * Pow10(|s|) + Value(s, 0) as real
  {
    if s != [] {
      var p := s[..|s| - 1];
      ValueOn(p, n);
      Pow10Up(|p|);
    }
  }

  lemma Scaling(l: Literal, e: int)
    requires Digits(l.frac)
    ensures var n := Value(l.frac, Value(l.whole, 0));
            (if l.minus then -(n as int) else n as int) as real * Pow10(e - |l.frac|)
            == (if l.minus then -1.0 else 1.0)
               * (Value(l.whole, 0) as real + Value(l.frac, 0) as real * Pow10(-|l.frac|)) * Pow10(e)
  {
    hide Value, Pow10;
    var f := |l.frac|;
    var w := Value(l.whole, 0);
    ValueOn(l.frac, w);
    Pow10Add(e - f, f);
    Pow10Add(-f, f);
    PowZero();
    Factor(w as real, Value(l.frac, 0) as real, Pow10(f), Pow10(-f), Pow10(e - f), Pow10(e));
  }

  lemma PowZero()
    ensures Pow10(0) == 1.0
  {
  }

  lemma Factor(w: real, v: real, p: real, q: real, k: real, e: real)
    requires p * q == 1.0 && e == k * p
    ensures (w * p + v) * k == (w + v * q) * e
  {
    assert (w + v * q) * e == w * (k * p) + v * (q * p) * k;
  }

  // ---- nothing else is a number --------------------------------------------------------------

  lemma {:induction false} DigitRun(s: string, n: nat) returns (d: string, rest: string)
    ensures Digits(d) && s == d + rest && (rest == [] || !IsDigit(rest[0])) && ReadDigits(s, n) == (Value(d, n), rest)
    ensures s != [] && IsDigit(s[0]) ==> d != [] && d[0] == s[0]
    decreases |s|
  {
    hide ReadDigits, Value;
    if s == [] || !IsDigit(s[0]) {
      d, rest := "", s;
      ReadStops(rest, n);
      NoDigits(n);
    } else {
      d, rest := DigitRun(s[1..], 0);
      d := [s[0]] + d;
      ReadValue(d, rest, n);
      ReadStops(rest, Value(d, n));
    }
  }

  lemma WholeTaken(s: string) returns (w: string, tail: string)
    ensures Digits(w) && s == w + tail && (|w| > 1 && w[0] == '0' ==> w[1] != '0')
    ensures ReadWhole(s) == (Value(w, 0), tail) && (s != [] && IsDigit(s[0]) ==> w != "")
  {
    hide ReadDigits, Value, ReadWhole, Loop;
    if s != [] && s[0] == '0' {
      var d;
      d, tail := LoopTaken(s[1..]);
      w := "0" + d;
      assert w[1..] == d && s == "0" + s[1..];
      ZeroFirst(s);
      LeadingZero(w);
    } else {
      w, tail := LoopTaken(s);
      NoZero(s);
    }
  }

  lemma LoopTaken(t: string) returns (d: string, tail: string)
    ensures Digits(d) && t == d + tail && (d != "" ==> d[0] != '0') && Loop(t) == (Value(d, 0), tail)
    ensures t != [] && '1' <= t[0] <= '9' ==> d != ""
  {
    hide ReadDigits, Value;
    if t != [] && '1' <= t[0] <= '9' {
      d, tail := DigitRun(t, 0);
    } else {
      d, tail := "", t;
      NoDigits(0);
    }
  }

  lemma FractionTaken(s: string, n: nat) returns (f: string, tail: string)
    ensures Digits(f) && s == (if f == "" then "" else "." + f) + tail
    ensures ReadFraction(s, n) == (Value(f, n), |f|, tail)
  {
    hide ReadDigits, Value;
    if |s| >= 2 && s[0] == '.' && IsDigit(s[1]) {
      f, tail := DigitRun(s[1..], n);
    } else {
      f, tail := "", s;
      NoDigits(n);
    }
  }

  lemma ExponentTaken(s: string) returns (mark: string, exp: string, tail: string)
    ensures Digits(exp) && (mark == "" ==> exp == "") && mark in {"", "e", "E", "e+", "E+", "e-", "E-"}
    ensures s == mark + exp + tail
    ensures ReadExponent(s) == (if mark == "e-" || mark == "E-" then -(Value(exp, 0) as int) else Value(exp, 0), tail)
  {
    hide ReadDigits, Value;
    if s == [] || (s[0] != 'e' && s[0] != 'E') {
      mark, exp, tail := "", "", s;
      NoDigits(0);
    } else {
      mark := if |s| > 1 && (s[1] == '+' || s[1] == '-') then [s[0], s[1]] else [s[0]];
      exp, tail := DigitRun(s[|mark|..], 0);
      assert mark == "e" || mark == "E" || mark == "e+" || mark == "E+" || mark == "e-" || mark == "E-";
      assert s == mark + (exp + tail);
    }
  }

  /** What parse_number reads is a number it takes. */
  lemma NumberSplit(s: string) returns (l: Literal, rest: string)
    requires s != [] && (s[0] == '-' || IsDigit(s[0]))
    ensures NumberTaken(l) && s == Text(l) + rest && ParseNumber(s) == Ok(NumberItem(l), rest)
  {
    hide ReadWhole, ReadFraction, ReadExponent, Value, Digits, Scaled, NumberItem, Text, Fraction, ParseNumber;
    var minus := s[0] == '-';
    var s0 := if minus then s[1..] else s;
    var w, s1 := WholeTaken(s0);
    var f, s2 := FractionTaken(s1, Value(w, 0));
    var mark, exp;
    mark, exp, rest := ExponentTaken(s2);
    l := Literal(minus, w, f, mark, exp);
    ScaledItem(l);
    PartsText(l, rest, s0, s1, s2);
    SignText(s);
    NumberOf(s, l, rest, s1, s2);
  }

  lemma SignText(s: string)
    requires s != []
    ensures s == (if s[0] == '-' then "-" else "") + if s[0] == '-' then s[1..] else s
  {
    if s[0] != '-' { assert "" + s == s; }
  }

  lemma NumberOf(s: string, l: Literal, rest: string, s1: string, s2: string)
    requires s != [] && (s[0] == '-' || IsDigit(s[0])) && l.minus == (s[0] == '-')
    requires ReadWhole(if l.minus then s[1..] else s) == (Value(l.whole, 0), s1)
    requires ReadFraction(s1, Value(l.whole, 0)) == (Value(l.frac, Value(l.whole, 0)), |l.frac|, s2)
    requires ReadExponent(s2) == (Exponent(l), rest) && (|rest| == |s1| <==> l.frac == "" && l.mark == "")
    ensures ParseNumber(s) == Ok(Scaled(l.minus, Value(l.frac, Value(l.whole, 0)), Exponent(l) - |l.frac|,
                                        l.frac == "" && l.mark == ""), rest)
  {
    hide ReadWhole, ReadFraction, ReadExponent, Value, Scaled, Exponent;
  }

  lemma PartsText(l: Literal, rest: string, s0: string, s1: string, s2: string)
    requires s2 == l.mark + l.exp + rest && s1 == (if l.frac == "" then "" else "." + l.frac) + s2 && s0 == l.whole + s1
    ensures Text(l) + rest == (if l.minus then "-" else "") + s0
    ensures (l.mark == "" ==> l.exp == "") ==> (|rest| == |s1| <==> l.frac == "" && l.mark == "")
  {
    assert s1 == Fraction(l) + (l.mark + l.exp) + rest;
    assert s0 == l.whole + (Fraction(l) + (l.mark + l.exp)) + rest;
  }

  // ---- one pass of each loop -----------------------------------------------------------------

  lemma SkipOne(c: char, s: string)
    ensures Skip([c] + s) == if c <= ' ' then Skip(s) else [c] + s
  {
    assert ([c] + s)[1..] == s;
  }

  /** One pass of the loop of parse_array. */
  lemma ItemsStep(s: string, v: Json, after: string)
    requires ParseValue(s) == Ok(v, after)
    ensures var t := Skip(after);
            && (Starts(t, ']') ==> ParseItems(s) == Ok(Node(v, NoNode), t[1..]))
            && (Starts(t, ',') && ParseItems(Skip(t[1..])).Ok? ==>
                  var r := ParseItems(Skip(t[1..])); ParseItems(s) == Ok(Node(v, r.value), r.rest))
  {
    hide ParseValue;
  }

  /** One pass of the loop of parse_object. */
  lemma MembersStep(s: string, name: string, colon: string, v: Json, after: string)
    requires Starts(s, '\"') && Unescape(s[1..]) == Ok(name, colon)
    requires var k := Skip(colon); Starts(k, ':') && ParseValue(Skip(k[1..])) == Ok(v, after)
    ensures var t := Skip(after);
            && (Starts(t, '}') ==> ParseMembers(s) == Ok(Member(name, v, NoMember), t[1..]))
            && (Starts(t, ',') && ParseMembers(Skip(t[1..])).Ok? ==>
                  var r := ParseMembers(Skip(t[1..])); ParseMembers(s) == Ok(Member(name, v, r.value), r.rest))
  {
    hide ParseValue, Unescape, Skip;
  }

  lemma ArrayStep(s: string)
    ensures var t := Skip(s);
            && (Starts(t, ']') ==> ParseValue("[" + s) == Ok(Array(NoNode), t[1..]))
            && (!Starts(t, ']') && ParseItems(t).Ok? ==>
                  var r := ParseItems(t); ParseValue("[" + s) == Ok(Array(r.value), r.rest))
  {
    hide ParseItems, ParseMembers, ParseNumber, Unescape, Skip;
    assert ("[" + s)[1..] == s;
  }

  lemma ObjectStep(s: string)
    ensures var t := Skip(s);
            && (Starts(t, '}') ==> ParseValue("{" + s) == Ok(Object(NoMember), t[1..]))
            && (!Starts(t, '}') && ParseMembers(t).Ok? ==>
                  var r := ParseMembers(t); ParseValue("{" + s) == Ok(Object(r.value), r.rest))
  {
    hide ParseItems, ParseMembers, ParseNumber, Unescape, Skip;
    assert ("{" + s)[1..] == s;
  }

  lemma WordStep(rest: string)
    ensures ParseValue("null" + rest) == Ok(Null, rest)
    ensures ParseValue("false" + rest) == Ok(False, rest)
    ensures ParseValue("true" + rest) == Ok(True, rest)
  {
    hide ParseItems, ParseMembers, ParseNumber, Unescape, Skip;
    assert ("null" + rest)[4..] == rest && ("true" + rest)[4..] == rest;
    assert ("false" + rest)[5..] == rest;
  }

  // ---- minifying ------------------------------------------------------------------------

  predicate IsSpace(c: char) {
    c == ' ' || c == '\t' || c == '\r' || c == '\n'
  }

  /** Behind "//": from the line end on. */
  function LineEnd(s: string): (r: string)
    ensures |r| <= |s|
  {
    if s == [] || s[0] == '\n' then s else LineEnd(s[1..])
  }

  /** Behind the start of a comment: from its end on, if it ends. */
  function CommentEnd(s: string): (r: Option<string>)
    ensures r.Some? ==> |r.value| < |s|
  {
    if |s| < 2 then None
    else if s[0] == '*' && s[1] == '/' then Some(s[2..])
    else CommentEnd(s[1..])
  }

  function Put(t: string, r: Option<string>): Option<string> {
    if r.Some? then Some(t + r.value) else None
  }

  /** cJSON_Minify; None where it would read past the end of the text, in an open
      comment or string. */
  function Minify(s: string): Option<string>
    decreases |s|
  {
    if s == [] then Some("")
    else if IsSpace(s[0]) then Minify(s[1..])
    else if s[0] == '/' && |s| > 1 && s[1] == '/' then Minify(LineEnd(s[2..]))
    else if s[0] == '/' && |s| > 1 && s[1] == '*' then
      var r := CommentEnd(s[1..]);
      if r.Some? then Minify(r.value) else None
    else if s[0] == '\"' then Put("\"", MinifyString(s[1..]))
    else Put([s[0]], Minify(s[1..]))
  }

  /** Behind an opening quote. */
  function MinifyString(s: string): Option<string>
    decreases |s|
  {
    if s == [] then None
    else if s[0] == '\"' then Put("\"", Minify(s[1..]))
    else if s[0] == '\\' then if |s| < 2 then None else Put(s[..2], MinifyString(s[2..]))
    else Put([s[0]], MinifyString(s[1..]))
  }

  /** Characters that are copied as they are. */
  predicate Solid(t: string) {
    forall i :: 0 <= i < |t| ==> !IsSpace(t[i]) && t[i] != '/' && t[i] != '\"'
  }

  lemma {:induction false} MinifySolid(t: string, rest: string)
    requires Solid(t)
    ensures Minify(t + rest) == Put(t, Minify(rest))
  {
    if t == [] {
      assert t + rest == rest;
      PutNothing(Minify(rest));
    } else {
      MinifySolid(t[1..], rest);
      assert (t + rest)[1..] == t[1..] + rest;
      PutPut([t[0]], t[1..], Minify(rest));
      assert [t[0]] + t[1..] == t;
    }
  }

  lemma PutPut(a: string, b: string, r: Option<string>)
    ensures Put(a, Put(b, r)) == Put(a + b, r)
  {
    if r.Some? { assert a + (b + r.value) == a + b + r.value; }
  }

  lemma PutNothing(r: Option<string>)
    ensures Put("", r) == r
  {
    if r.Some? { assert "" + r.value == r.value; }
  }

  lemma MinifySpace(c: char, rest: string)
    requires IsSpace(c)
    ensures Minify([c] + rest) == Minify(rest)
  {
    assert ([c] + rest)[1..] == rest;
  }

  lemma {:induction false} CopyPlain(t: string, tail: string)
    requires forall i :: 0 <= i < |t| ==> t[i] != '\"' && t[i] != '\\'
    ensures MinifyString(t + tail) == Put(t, MinifyString(tail))
  {
    if t == [] {
      assert t + tail == tail;
      PutNothing(MinifyString(tail));
    } else {
      CopyPlain(t[1..], tail);
      assert (t + tail)[1..] == t[1..] + tail;
      PutPut([t[0]], t[1..], MinifyString(tail));
      assert [t[0]] + t[1..] == t;
    }
  }

}
