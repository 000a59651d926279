/** The parser of cJSON.c as it walks a text with a moving pointer, and cJSON_Minify as
    it compacts a buffer in place. Each method is proved against the function of Json or
    JsonStrings that it computes; a pointer is an index into the text, which ends where
    the NUL of the source stands. */
module JsonParser {
  import opened Chains
  import opened Json
  import opened JsonStrings

  const NUL := '\0'

  lemma Behind(t: string, i: nat, k: nat)
    requires i + k <= |t|
    ensures t[i..][k..] == t[i + k..]
    ensures k < |t[i..]| ==> t[i..][k] == t[i + k]
  {
  }

  /** skip */
  method SkipSpace(t: string, i: nat) returns (j: nat)
    requires i <= |t|
    ensures i <= j <= |t| && t[j..] == Skip(t[i..])
  {
    j := i;
    while j < |t| && t[j] <= ' '
      invariant i <= j <= |t| && Skip(t[i..]) == Skip(t[j..])
    {
      Behind(t, j, 1);
      j := j + 1;
    }
  }

  // ---- strings ----------------------------------------------------------------------

  /** The counting loop never steps over the end of the text. */
  ghost predicate Closed(s: string)
    decreases |s|
  {
    s == [] || s[0] == '\"' || (if s[0] == '\\' then |s| >= 2 && Closed(s[2..]) else Closed(s[1..]))
  }

  lemma {:induction false} LiteralsClose(s: string)
    requires Unescape(s).Ok?
    ensures Closed(s)
    decreases |s|
  {
    if s != [] && s[0] != '\"' {
      if s[0] != '\\' {
        LiteralsClose(s[1..]);
      } else if s[1] != 'u' {
        LiteralsClose(s[2..]);
      } else {
        var u := CodePoint(s[2..]);
        LiteralsClose(u.rest);
        EscapeCloses(s, u.rest);
      }
    }
  }

  lemma FourClose(s: string)
    requires FourInside(s) && Closed(s[4..])
    ensures Closed(s)
  {
    assert s[3..][1..] == s[4..];
    assert Closed(s[3..]);
    assert s[2..][1..] == s[3..];
    assert Closed(s[2..]);
    assert s[1..][1..] == s[2..];
    assert Closed(s[1..]);
  }

  lemma EscapeCloses(s: string, rest: string)
    requires |s| >= 2 && s[0] == '\\' && s[1] == 'u' && CodePoint(s[2..]).Ok? && rest == CodePoint(s[2..]).rest
    requires Closed(rest)
    ensures Closed(s)
  {
    var h := s[2..];
    if rest != h[4..] {
      assert h[6..][4..] == h[10..];
      FourClose(h[6..]);
      assert h[4..][2..] == h[6..];
    }
    FourClose(h);
  }

  /** The first loop: how much room the string needs, roughly. */
  method CountString(t: string, i: nat) returns (len: nat)
    requires i <= |t| && Closed(t[i..])
    ensures len == CountBody(t[i..])
  {
    var ptr := i;
    len := 0;
    while ptr < |t| && t[ptr] != '\"'
      invariant i <= ptr <= |t| && Closed(t[ptr..])
      invariant CountBody(t[i..]) == len + CountBody(t[ptr..])
    {
      Behind(t, ptr, 1);
      len := len + 1;
      if t[ptr] == '\\' {
        Behind(t, ptr, 2);
        ptr := ptr + 1;
      }
      ptr := ptr + 1;
    }
  }

  /** firstByteMark on the top bits of a code point. */
  function Lead(uc: nat, len: nat): char
    requires 1 <= len <= 4 && uc < 0x40
  {
    (uc + if len == 1 then 0 else if len == 2 then 0xC0 else if len == 3 then 0xE0 else 0xF0) as char
  }

  /** The switch that stores a code point from its last byte to its first. */
  method StoreUtf8(out: array<char>, at: nat, code: nat) returns (len: nat)
    requires code < 0x110000 && at + |Encode(code)| <= out.Length
    modifies out
    ensures len == |Encode(code)| && out[at..at + len] == Encode(code)
    ensures forall k :: 0 <= k < out.Length && !(at <= k < at + len) ==> out[k] == old(out[k])
  {
    var uc := code;
    len := 4;
    if uc < 0x80 { len := 1; } else if uc < 0x800 { len := 2; } else if uc < 0x10000 { len := 3; }
    var ptr2 := at + len;
    if len >= 4 {
      ptr2 := ptr2 - 1;
      out[ptr2] := Low(uc);
      uc := uc / 64;
    }
    if len >= 3 {
      ptr2 := ptr2 - 1;
      out[ptr2] := Low(uc);
      uc := uc / 64;
    }
    if len >= 2 {
      ptr2 := ptr2 - 1;
      out[ptr2] := Low(uc);
      uc := uc / 64;
    }
    ptr2 := ptr2 - 1;
    out[ptr2] := if len == 1 then uc as char else Lead(uc, len);
    assert out[at..at + len] == Encode(code);
  }

  /** parse_hex4 returns 0 at the first character that is no digit, the NUL included. */
  method ReadHex4(t: string, i: nat) returns (h: nat)
    requires i <= |t|
    ensures h == Hex4(t[i..])
  {
    if i >= |t| || !IsHex(t[i]) { return 0; }
    h := HexValue(t[i]);
    if i + 1 >= |t| || !IsHex(t[i + 1]) { return 0; }
    h := h * 16 + HexValue(t[i + 1]);
    if i + 2 >= |t| || !IsHex(t[i + 2]) { return 0; }
    h := h * 16 + HexValue(t[i + 2]);
    if i + 3 >= |t| || !IsHex(t[i + 3]) { return 0; }
    h := h * 16 + HexValue(t[i + 3]);
  }

  /** What the copying loop has still to do: out[..n] is stored, the text from ptr on is
      not read yet. */
  ghost predicate Copying(t: string, i: nat, ptr: nat, done: string, room: nat) {
    && i <= ptr <= |t| && Unescape(t[i..]).Ok? && Unescape(t[ptr..]).Ok?
    && Unescape(t[i..]).value == done + Unescape(t[ptr..]).value && Unescape(t[i..]).rest == Unescape(t[ptr..]).rest
    && |done| + CountBody(t[ptr..]) <= room
  }

  /** What an escape inside the model is: nothing stored for a lone or broken half, else
      a code point after one escape or two. */
  lemma EscapeCases(s: string)
    requires CodePoint(s).Ok?
    ensures |s| >= 4 && FourInside(s)
    ensures var uc := Hex4(s);
            if (0xDC00 <= uc <= 0xDFFF) || uc == 0 then CodePoint(s) == Ok("", s[4..])
            else if uc < 0xD800 || uc > 0xDBFF then CodePoint(s) == Ok(Encode(uc), s[4..])
            else if |s| < 6 || s[4] != '\\' || s[5] != 'u' then CodePoint(s) == Ok("", s[4..])
            else
              && |s| >= 10 && FourInside(s[6..])
              && var uc2 := Hex4(s[6..]);
                 CodePoint(s) == if uc2 < 0xDC00 || uc2 > 0xDFFF then Ok("", s[10..])
                                 else Ok(Encode(0x10000 + uc % 0x400 * 0x400 + uc2 % 0x400), s[10..])
  {
  }

  /** Case 'u': ptr is at the u; p is where the switch leaves it, on the last character
      read. */
  method Transcode(t: string, ptr: nat, out: array<char>, ptr2: nat) returns (p: nat, n: nat)
    requires ptr < |t| && CodePoint(t[ptr + 1..]).Ok? && ptr2 + |CodePoint(t[ptr + 1..]).value| <= out.Length
    modifies out
    ensures ptr < p < |t| && t[p + 1..] == CodePoint(t[ptr + 1..]).rest
    ensures n == ptr2 + |CodePoint(t[ptr + 1..]).value| && out[ptr2..n] == CodePoint(t[ptr + 1..]).value
    ensures forall k :: 0 <= k < ptr2 ==> out[k] == old(out[k])
  {
    hide Encode, Hex4, FourInside, CodePoint;
    ghost var s := t[ptr + 1..];
    EscapeCases(s);
    Behind(t, ptr + 1, 4);
    p, n := ptr, ptr2;
    var uc := ReadHex4(t, p + 1);
    p := p + 4;
    if (0xDC00 <= uc <= 0xDFFF) || uc == 0 { return; }
    if 0xD800 <= uc <= 0xDBFF {
      if p + 1 >= |t| || t[p + 1] != '\\' || p + 2 >= |t| || t[p + 2] != 'u' { return; }
      Behind(t, ptr + 1, 6);
      Behind(t, ptr + 1, 10);
      var uc2 := ReadHex4(t, p + 3);
      p := p + 6;
      if uc2 < 0xDC00 || uc2 > 0xDFFF { return; }
      uc := 0x10000 + uc % 0x400 * 0x400 + uc2 % 0x400;
    }
    var len := StoreUtf8(out, ptr2, uc);
    n := ptr2 + len;
  }

  lemma CopyStep(t: string, i: nat, ptr: nat, done: string, room: nat)
    requires Copying(t, i, ptr, done, room) && ptr < |t| && t[ptr] != '\"'
    ensures t[ptr] != '\\' ==> |done| < room && Copying(t, i, ptr + 1, done + [t[ptr]], room)
    ensures t[ptr] == '\\' ==> ptr + 1 < |t|
    ensures t[ptr] == '\\' && t[ptr + 1] != 'u' ==>
              |done| < room && Copying(t, i, ptr + 2, done + [Simple(t[ptr + 1])], room)
    ensures t[ptr] == '\\' && t[ptr + 1] == 'u' ==>
              var u := CodePoint(t[ptr + 2..]);
              u.Ok? && |done + u.value| + CountBody(u.rest) <= room
  {
    hide CodePoint, Closed;
    Behind(t, ptr, 1);
    if t[ptr] == '\\' {
      assert |t[ptr..]| > 1;
      Behind(t, ptr, 2);
      if t[ptr + 1] == 'u' {
        var s := t[ptr..];
        var u := CodePoint(t[ptr + 2..]);
        CountSkips(s, u.rest);
      }
    }
  }

  lemma CopyEscape(t: string, i: nat, ptr: nat, done: string, room: nat, p: nat)
    requires Copying(t, i, ptr, done, room) && ptr + 1 < |t| && t[ptr] == '\\' && t[ptr + 1] == 'u'
    requires ptr < p < |t| && CodePoint(t[ptr + 2..]).Ok? && t[p + 1..] == CodePoint(t[ptr + 2..]).rest
    ensures Copying(t, i, p + 1, done + CodePoint(t[ptr + 2..]).value, room)
  {
    hide CodePoint;
    Behind(t, ptr, 2);
    Behind(t, ptr, 1);
    CountSkips(t[ptr..], t[p + 1..]);
  }

  /** parse_string: ok is false where no string starts. The text of a string must be inside the
      model; then the counted buffer is never overrun. */
  method StringAt(t: string, i: nat) returns (ok: bool, v: string, j: nat)
    requires i <= |t| && (Starts(t[i..], '\"') ==> Unescape(t[i + 1..]).Ok?)
    ensures ok <==> Starts(t[i..], '\"')
    ensures ok ==> i < j <= |t| && Unescape(t[i + 1..]) == Ok(v, t[j..])
  {
    hide Unescape, CountBody, CodePoint, Closed, Copying;
    ok, v, j := false, "", i;
    if i >= |t| || t[i] != '\"' { return; }
    LiteralsClose(t[i + 1..]);
    var len := CountString(t, i + 1);
    var out := new char[len + 1];
    var ptr, ptr2: nat := i + 1, 0;
    CopyStart(t, i + 1);
    assert out[..0] == "";
    while ptr < |t| && t[ptr] != '\"'
      invariant ptr2 <= len && Copying(t, i + 1, ptr, out[..ptr2], len) && i < ptr <= |t|
      decreases |t| - ptr
    {
      ghost var done := out[..ptr2];
      CopyStep(t, i + 1, ptr, done, len);
      if t[ptr] != '\\' {
        out[ptr2] := t[ptr];
        assert out[..ptr2 + 1] == done + [t[ptr]];
        ptr2 := ptr2 + 1;
        ptr := ptr + 1;
      } else {
        ptr := ptr + 1;
        if t[ptr] == 'u' {
          var p, n := Transcode(t, ptr, out, ptr2);
          assert out[..n] == done + out[ptr2..n];
          CopyEscape(t, i + 1, ptr - 1, done, len, p);
          ptr, ptr2 := p, n;
        } else {
          out[ptr2] := Simple(t[ptr]);
          assert out[..ptr2 + 1] == done + [Simple(t[ptr])];
          ptr2 := ptr2 + 1;
        }
        ptr := ptr + 1;
      }
    }
    CopyEnd(t, i + 1, ptr, out[..ptr2], len);
    v := out[..ptr2];
    out[ptr2] := NUL;
    if ptr < |t| { ptr := ptr + 1; }
    ok, j := true, ptr;
  }

  lemma CopyStart(t: string, i: nat)
    requires i <= |t| && Unescape(t[i..]).Ok?
    ensures Copying(t, i, i, "", CountBody(t[i..]))
  {
  }

  lemma CopyEnd(t: string, i: nat, ptr: nat, done: string, room: nat)
    requires Copying(t, i, ptr, done, room) && (ptr < |t| ==> t[ptr] == '\"')
    ensures var end := if ptr < |t| then ptr + 1 else ptr; Unescape(t[i..]) == Ok(done, t[end..])
  {
    assert done + "" == done;
    if ptr < |t| { Behind(t, ptr, 1); } else { assert t[ptr..] == ""; }
  }

  // ---- numbers --------------------------------------------------------------------------

  /** parse_number */
  method NumberAt(t: string, i: nat) returns (v: Json, j: nat)
    requires i < |t| && (t[i] == '-' || IsDigit(t[i]))
    ensures i < j <= |t| && ParseNumber(t[i..]) == Ok(v, t[j..])
  {
    hide ReadWhole, ReadFraction, ReadExponent, Scaled;
    var negative := false;
    j := i;
    if t[j] == '-' {
      negative := true;
      Behind(t, j, 1);
      j := j + 1;
    }
    var n, scale, subscale;
    n, j := WholeAt(t, j);
    var whole := j;
    n, scale, j := FractionAt(t, j, n);
    subscale, j := ExponentAt(t, j);
    v := Scaled(negative, n, subscale - scale, j == whole);
  }

  /** Its integer part. */
  method WholeAt(t: string, i: nat) returns (n: nat, j: nat)
    requires i <= |t|
    ensures i <= j <= |t| && ReadWhole(t[i..]) == (n, t[j..])
  {
    hide ReadDigits;
    n, j := 0, i;
    if j < |t| && t[j] == '0' {
      Behind(t, j, 1);
      j := j + 1;
    }
    if j < |t| && '1' <= t[j] <= '9' {
      n, j := DigitsAt(t, j, 0);
    }
  }

  /** Its digit loops. */
  method DigitsAt(t: string, i: nat, from: nat) returns (n: nat, j: nat)
    requires i <= |t|
    ensures i <= j <= |t| && ReadDigits(t[i..], from) == (n, t[j..])
  {
    n, j := from, i;
    while j < |t| && IsDigit(t[j])
      invariant i <= j <= |t| && ReadDigits(t[i..], from) == ReadDigits(t[j..], n)
    {
      Behind(t, j, 1);
      n := n * 10 + DigitValue(t[j]);
      j := j + 1;
    }
  }

  /** Its fraction, whose digits each count the scale down. */
  method FractionAt(t: string, i: nat, from: nat) returns (n: nat, scale: nat, j: nat)
    requires i <= |t|
    ensures i <= j <= |t| && ReadFraction(t[i..], from) == (n, scale, t[j..])
  {
    hide ReadDigits;
    n, scale, j := from, 0, i;
    if i + 1 < |t| && t[i] == '.' && IsDigit(t[i + 1]) {
      Behind(t, i, 1);
      n, j := DigitsAt(t, i + 1, from);
      scale := j - (i + 1);
    }
  }

  /** Its exponent, with or without a sign. */
  method ExponentAt(t: string, i: nat) returns (subscale: int, j: nat)
    requires i <= |t|
    ensures i <= j <= |t| && ReadExponent(t[i..]) == (subscale, t[j..])
  {
    hide ReadDigits;
    subscale, j := 0, i;
    if i < |t| && (t[i] == 'e' || t[i] == 'E') {
      Behind(t, i, 1);
      var sign: int := 1;
      j := i + 1;
      if j < |t| && (t[j] == '+' || t[j] == '-') {
        Behind(t, i, 2);
        sign := if t[j] == '-' then -1 else 1;
        j := j + 1;
      }
      var n;
      n, j := DigitsAt(t, j, 0);
      subscale := n * sign;
    }
  }

  // ---- values ------------------------------------------------------------------------------

  /** The chain of the children parsed so far, with end behind it. */
  function Chained(items: seq<Json>, end: Nodes): Nodes {
    if items == [] then end else Node(items[0], Chained(items[1..], end))
  }

  function Named(names: seq<string>, items: seq<Json>, end: Members): Members
    requires |names| == |items|
  {
    if items == [] then end else Member(names[0], items[0], Named(names[1..], items[1..], end))
  }

  /** What parse_array does once it has parsed v and skipped to s. */
  ghost function ItemsTail(v: Json, s: string): Parsed<Nodes> {
    if Starts(s, ',') then
      var r := ParseItems(Skip(s[1..]));
      if r.Ok? then Ok(Node(v, r.value), r.rest) else r
    else if Starts(s, ']') then Ok(Node(v, NoNode), s[1..])
    else Fail
  }

  ghost function MembersTail(name: string, v: Json, s: string): Parsed<Members> {
    if Starts(s, ',') then
      var r := ParseMembers(Skip(s[1..]));
      if r.Ok? then Ok(Member(name, v, r.value), r.rest) else r
    else if Starts(s, '}') then Ok(Member(name, v, NoMember), s[1..])
    else Fail
  }

  ghost function AfterItems(items: seq<Json>, r: Parsed<Nodes>): Parsed<Nodes> {
    if r.Ok? then Ok(Chained(items, r.value), r.rest) else r
  }

  ghost function AfterMembers(names: seq<string>, items: seq<Json>, r: Parsed<Members>): Parsed<Members>
    requires |names| == |items|
  {
    if r.Ok? then Ok(Named(names, items, r.value), r.rest) else r
  }

  lemma ItemsBegin(s: string)
    ensures var v := ParseValue(s);
            ParseItems(s) == if v.Fail? then Fail else if v.Outside? then Outside else ItemsTail(v.value, Skip(v.rest))
  {
    hide ParseValue, Skip;
  }

  lemma {:induction false} ChainedMore(items: seq<Json>, v: Json, end: Nodes)
    ensures Chained(items, Node(v, end)) == Chained(items + [v], end)
  {
    if items == [] {
      assert (items + [v])[1..] == [];
    } else {
      ChainedMore(items[1..], v, end);
      assert (items + [v])[1..] == items[1..] + [v];
    }
  }

  /** One pass of the loop of parse_array. */
  lemma ItemsNext(items: seq<Json>, v: Json, s: string)
    requires Starts(s, ',')
    ensures var w := ParseValue(Skip(s[1..]));
            AfterItems(items, ItemsTail(v, s)) ==
            if w.Fail? then Fail else if w.Outside? then Outside
            else AfterItems(items + [v], ItemsTail(w.value, Skip(w.rest)))
  {
    hide ParseValue, Skip, ParseItems;
    var next := Skip(s[1..]);
    ItemsBegin(next);
    var r := ParseItems(next);
    if r.Ok? { ChainedMore(items, v, r.value); }
  }

  /** skip(skip(value)) */
  lemma {:induction false} SkipTwice(s: string)
    ensures Skip(Skip(s)) == Skip(s)
  {
    if s != [] && s[0] <= ' ' { SkipTwice(s[1..]); }
  }

  /** parse_value. Where the text is inside the model, ok says that it parses. */
  method ValueAt(t: string, i: nat) returns (ok: bool, v: Json, j: nat)
    requires i <= |t| && !ParseValue(t[i..]).Outside?
    ensures ok <==> ParseValue(t[i..]).Ok?
    ensures ok ==> i < j <= |t| && ParseValue(t[i..]) == Ok(v, t[j..])
    decreases |t| - i, 1
  {
    hide ParseItems, ParseMembers, ParseNumber, Unescape, Skip;
    ok, v, j := true, Null, i;
    if SaysNull(t[i..]) {
      Behind(t, i, 4);
      return true, Null, i + 4;
    }
    if SaysFalse(t[i..]) {
      Behind(t, i, 5);
      return true, False, i + 5;
    }
    if SaysTrue(t[i..]) {
      Behind(t, i, 4);
      return true, True, i + 4;
    }
    if i == |t| { return false, Null, i; }
    Behind(t, i, 0);
    Behind(t, i, 1);
    if t[i] == '\"' {
      var s;
      ok, s, j := StringAt(t, i);
      v := Str(s);
    } else if t[i] == '-' || IsDigit(t[i]) {
      v, j := NumberAt(t, i);
    } else if t[i] == '[' {
      ok, v, j := ArrayAt(t, i);
    } else if t[i] == '{' {
      ok, v, j := ObjectAt(t, i);
    } else {
      ok := false;
    }
  }

  /** parse_array */
  method ArrayAt(t: string, i: nat) returns (ok: bool, v: Json, j: nat)
    requires i < |t| && t[i] == '[' && !ParseValue(t[i..]).Outside?
    ensures ok <==> ParseValue(t[i..]).Ok?
    ensures ok ==> i < j <= |t| && ParseValue(t[i..]) == Ok(v, t[j..])
    decreases |t| - i, 0
  {
    hide ParseItems, Skip, ParseValue;
    Behind(t, i, 0);
    Behind(t, i, 1);
    var p := SkipSpace(t, i + 1);
    ArrayIs(t[i..], t[p..]);
    if p < |t| && t[p] == ']' {
      Behind(t, p, 1);
      return true, Array(NoNode), p + 1;
    }
    SkipTwice(t[i + 1..]);
    var nodes;
    ok, nodes, j := ItemsAt(t, p);
    v := Array(nodes);
  }

  /** The elements, up to the closing bracket. */
  method ItemsAt(t: string, i: nat) returns (ok: bool, v: Nodes, j: nat)
    requires i <= |t| && !ParseItems(t[i..]).Outside? && Skip(t[i..]) == t[i..]
    ensures ok <==> ParseItems(t[i..]).Ok?
    ensures ok ==> i < j <= |t| && ParseItems(t[i..]) == Ok(v, t[j..])
    decreases |t| - i, 2
  {
    hide ParseItems, Skip, ParseValue, ItemsTail, AfterItems, Chained;
    ItemsBegin(t[i..]);
    var p := SkipSpace(t, i);
    var good, child, k := ValueAt(t, p);
    if !good { return false, NoNode, i; }
    p := SkipSpace(t, k);
    var items: seq<Json> := [];
    ItemsNone(ItemsTail(child, t[p..]));
    while p < |t| && t[p] == ','
      invariant i < p <= |t|
      invariant ParseItems(t[i..]) == AfterItems(items, ItemsTail(child, t[p..]))
      decreases |t| - p
    {
      ItemsNext(items, child, t[p..]);
      Behind(t, p, 1);
      p := SkipSpace(t, p + 1);
      items := items + [child];
      good, child, k := ValueAt(t, p);
      if !good { return false, NoNode, i; }
      p := SkipSpace(t, k);
    }
    ItemsDone(items, child, t[p..]);
    if p < |t| && t[p] == ']' {
      Behind(t, p, 1);
      return true, Chained(items + [child], NoNode), p + 1;
    }
    return false, NoNode, i;
  }

  lemma ArrayIs(s: string, u: string)
    requires Starts(s, '[') && u == Skip(s[1..])
    ensures Starts(u, ']') ==> ParseValue(s) == Ok(Array(NoNode), u[1..])
    ensures !Starts(u, ']') ==>
              var r := ParseItems(u);
              ParseValue(s) == if r.Ok? then Ok(Array(r.value), r.rest) else if r.Fail? then Fail else Outside
  {
    hide ParseItems, ParseMembers, ParseNumber, Unescape, Skip;
  }

  lemma ItemsNone(r: Parsed<Nodes>)
    ensures AfterItems([], r) == r
  {
  }

  lemma ItemsDone(items: seq<Json>, v: Json, s: string)
    requires !Starts(s, ',')
    ensures AfterItems(items, ItemsTail(v, s)) ==
            if Starts(s, ']') then Ok(Chained(items + [v], NoNode), s[1..]) else Fail
  {
    ChainedMore(items, v, NoNode);
  }

  lemma ObjectIs(s: string, u: string)
    requires Starts(s, '{') && u == Skip(s[1..])
    ensures Starts(u, '}') ==> ParseValue(s) == Ok(Object(NoMember), u[1..])
    ensures !Starts(u, '}') ==>
              var r := ParseMembers(u);
              ParseValue(s) == if r.Ok? then Ok(Object(r.value), r.rest) else if r.Fail? then Fail else Outside
  {
    hide ParseItems, ParseMembers, ParseNumber, Unescape, Skip;
  }

  /** A name, a colon and a value, which parse_object reads in and before its loop. */
  ghost function Pair(s: string): (r: Parsed<(string, Json)>)
    ensures r.Ok? ==> |r.rest| < |s|
  {
    if !Starts(s, '\"') then Fail
    else
      var k := Unescape(s[1..]);
      if k.Outside? then Outside
      else
        var t := Skip(k.rest);
        if !Starts(t, ':') then Fail
        else
          var v := ParseValue(Skip(t[1..]));
          if v.Fail? then Fail else if v.Outside? then Outside else Ok((k.value, v.value), v.rest)
  }

  lemma MembersBegin(s: string)
    ensures var p := Pair(s);
            ParseMembers(s) ==
            if p.Fail? then Fail else if p.Outside? then Outside else MembersTail(p.value.0, p.value.1, Skip(p.rest))
  {
    hide ParseValue, Skip, Unescape;
  }

  lemma {:induction false} NamedMore(names: seq<string>, items: seq<Json>, name: string, v: Json, end: Members)
    requires |names| == |items|
    ensures Named(names, items, Member(name, v, end)) == Named(names + [name], items + [v], end)
  {
    if items == [] {
      assert (items + [v])[1..] == [] && (names + [name])[1..] == [];
    } else {
      NamedMore(names[1..], items[1..], name, v, end);
      assert (items + [v])[1..] == items[1..] + [v] && (names + [name])[1..] == names[1..] + [name];
    }
  }

  /** One pass of the loop of parse_object. */
  lemma MembersNext(names: seq<string>, items: seq<Json>, name: string, v: Json, s: string)
    requires Starts(s, ',') && |names| == |items|
    ensures var p := Pair(Skip(s[1..]));
            AfterMembers(names, items, MembersTail(name, v, s)) ==
            if p.Fail? then Fail else if p.Outside? then Outside
            else AfterMembers(names + [name], items + [v], MembersTail(p.value.0, p.value.1, Skip(p.rest)))
  {
    hide Pair, Skip, ParseMembers;
    var next := Skip(s[1..]);
    MembersBegin(next);
    var r := ParseMembers(next);
    if r.Ok? { NamedMore(names, items, name, v, r.value); }
  }

  lemma MembersNone(r: Parsed<Members>)
    ensures AfterMembers([], [], r) == r
  {
  }

  lemma MembersDone(names: seq<string>, items: seq<Json>, name: string, v: Json, s: string)
    requires !Starts(s, ',') && |names| == |items|
    ensures AfterMembers(names, items, MembersTail(name, v, s)) ==
            if Starts(s, '}') then Ok(Named(names + [name], items + [v], NoMember), s[1..]) else Fail
  {
    NamedMore(names, items, name, v, NoMember);
  }

  method PairAt(t: string, i: nat) returns (ok: bool, name: string, v: Json, j: nat)
    requires i <= |t| && !Pair(t[i..]).Outside?
    ensures ok <==> Pair(t[i..]).Ok?
    ensures ok ==> i < j <= |t| && Pair(t[i..]) == Ok((name, v), t[j..])
    decreases |t| - i, 2
  {
    hide ParseValue, Unescape, Skip;
    if i < |t| {
      Behind(t, i, 0);
      Behind(t, i, 1);
    }
    v := Null;
    ok, name, j := StringAt(t, i);
    if !ok { return; }
    j := SkipSpace(t, j);
    if j == |t| || t[j] != ':' { return false, name, v, j; }
    Behind(t, j, 1);
    j := SkipSpace(t, j + 1);
    ok, v, j := ValueAt(t, j);
  }

  /** parse_object */
  method ObjectAt(t: string, i: nat) returns (ok: bool, v: Json, j: nat)
    requires i < |t| && t[i] == '{' && !ParseValue(t[i..]).Outside?
    ensures ok <==> ParseValue(t[i..]).Ok?
    ensures ok ==> i < j <= |t| && ParseValue(t[i..]) == Ok(v, t[j..])
    decreases |t| - i, 0
  {
    hide ParseMembers, Skip, ParseValue;
    Behind(t, i, 0);
    Behind(t, i, 1);
    var p := SkipSpace(t, i + 1);
    ObjectIs(t[i..], t[p..]);
    if p < |t| && t[p] == '}' {
      Behind(t, p, 1);
      return true, Object(NoMember), p + 1;
    }
    SkipTwice(t[i + 1..]);
    var members;
    ok, members, j := MembersAt(t, p);
    v := Object(members);
  }

  /** The pairs, up to the closing brace. */
  method MembersAt(t: string, i: nat) returns (ok: bool, v: Members, j: nat)
    requires i <= |t| && !ParseMembers(t[i..]).Outside? && Skip(t[i..]) == t[i..]
    ensures ok <==> ParseMembers(t[i..]).Ok?
    ensures ok ==> i < j <= |t| && ParseMembers(t[i..]) == Ok(v, t[j..])
    decreases |t| - i, 3
  {
    hide ParseMembers, Skip, MembersTail, AfterMembers, Pair, Named;
    MembersBegin(t[i..]);
    var p := SkipSpace(t, i);
    var good, name, child, k := PairAt(t, p);
    if !good { return false, NoMember, i; }
    p := SkipSpace(t, k);
    var names: seq<string>, items: seq<Json> := [], [];
    MembersNone(MembersTail(name, child, t[p..]));
    while p < |t| && t[p] == ','
      invariant i < p <= |t| && |names| == |items|
      invariant ParseMembers(t[i..]) == AfterMembers(names, items, MembersTail(name, child, t[p..]))
      decreases |t| - p
    {
      MembersNext(names, items, name, child, t[p..]);
      Behind(t, p, 1);
      p := SkipSpace(t, p + 1);
      names, items := names + [name], items + [child];
      good, name, child, k := PairAt(t, p);
      if !good { return false, NoMember, i; }
      p := SkipSpace(t, k);
    }
    MembersDone(names, items, name, child, t[p..]);
    if p < |t| && t[p] == '}' {
      Behind(t, p, 1);
      return true, Named(names + [name], items + [child], NoMember), p + 1;
    }
    return false, NoMember, i;
  }

  /** cJSON_ParseWithOpts */
  method ParseText(t: string, whole: bool) returns (ok: bool, v: Json, end: nat)
    requires !ParseValue(Skip(t)).Outside?
    ensures ok <==> Parse(t, whole).Ok?
    ensures ok ==> end <= |t| && Parse(t, whole) == Ok(v, t[end..])
  {
    hide ParseValue, Skip;
    assert t[0..] == t;
    var i := SkipSpace(t, 0);
    ok, v, end := ValueAt(t, i);
    if ok && whole {
      end := SkipSpace(t, end);
      if end < |t| { ok := false; }
    }
  }

  // ---- cJSON_Minify ----------------------------------------------------------------------------

  /** The buffer in the middle of the compaction of s: what is kept lies in front, what
      is not read yet lies unchanged at its end. */
  ghost predicate Compacting(s: string, b: string, into: nat, json: nat, rest: Option<string>) {
    && into <= json <= |s| < |b| && b[json..|s|] == s[json..] && b[|s|] == NUL
    && rest.Some? && Minify(s) == Put(b[..into], rest)
  }

  /** *into++ = *json++ */
  method Copy(a: array<char>, ghost s: string, into: nat, json: nat, ghost rest: Option<string>) returns (i: nat, j: nat)
    requires json < |s| && Compacting(s, a[..], into, json, Put([s[json]], rest))
    modifies a
    ensures i == into + 1 && j == json + 1 && Compacting(s, a[..], i, j, rest)
    ensures forall k :: |s| <= k < a.Length ==> a[k] == old(a[k])
  {
    ghost var b := a[..];
    assert b[json] == b[json..|s|][0] == s[json];
    PutPut(b[..into], [s[json]], rest);
    a[into] := a[json];
    assert a[..into + 1] == b[..into] + [s[json]];
    assert a[..][json + 1..|s|] == b[json..|s|][1..] && s[json + 1..] == s[json..][1..];
    i, j := into + 1, json + 1;
  }

  lemma Reads(s: string, b: string, into: nat, json: nat, rest: Option<string>)
    requires Compacting(s, b, into, json, rest) && Text(s)
    ensures rest.Some? && (b[json] == NUL <==> json == |s|)
    ensures json < |s| ==> b[json] == s[json] && s[json..] != [] && s[json..][0] == s[json]
    ensures json < |s| ==> b[json + 1] == if json + 1 < |s| then s[json + 1] else NUL
    ensures json < |s| ==> s[json..][1..] == s[json + 1..]
    ensures json + 1 < |s| ==> s[json..][1] == s[json + 1] && s[json..][2..] == s[json + 2..] && s[json + 1] != NUL
  {
    if json < |s| {
      assert b[json..|s|][0] == b[json] && s[json..][0] == s[json];
      if json + 1 < |s| { assert b[json..|s|][1] == b[json + 1] && s[json..][1] == s[json + 1]; }
    }
  }

  /** A C string has no NUL of its own. */
  predicate Text(s: string) {
    forall i :: 0 <= i < |s| ==> s[i] != NUL
  }

  lemma Dropped(s: string, b: string, into: nat, json: nat, rest: Option<string>, k: nat)
    requires Compacting(s, b, into, json, rest) && json <= k <= |s|
    ensures Compacting(s, b, into, k, rest)
  {
    assert b[k..|s|] == b[json..|s|][k - json..] && s[k..] == s[json..][k - json..];
  }

  /** A comment to the end of the line. */
  method SkipLine(a: array<char>, ghost s: string, ghost into: nat, json: nat, ghost rest: Option<string>) returns (j: nat)
    requires Text(s) && json + 1 < |s| < a.Length && s[json] == '/' == s[json + 1] && Compacting(s, a[..], into, json, rest)
    ensures json < j <= |s| && Compacting(s, a[..], into, j, rest) && s[j..] == LineEnd(s[json + 2..])
  {
    hide Compacting;
    j := json;
    Reads(s, a[..], into, j, rest);
    while a[j] != NUL && a[j] != '\n'
      invariant json <= j <= |s| && Compacting(s, a[..], into, j, rest) && (a[j] == NUL <==> j == |s|)
      invariant j < |s| ==> a[j] == s[j]
      invariant j >= json + 2 ==> LineEnd(s[json + 2..]) == LineEnd(s[j..])
      decreases |s| - j
    {
      Reads(s, a[..], into, j, rest);
      Dropped(s, a[..], into, j, rest, j + 1);
      j := j + 1;
      Reads(s, a[..], into, j, rest);
    }
  }

  /** A comment that ends somewhere. */
  method SkipComment(a: array<char>, ghost s: string, ghost into: nat, json: nat, ghost rest: Option<string>) returns (j: nat)
    requires Text(s) && json < |s| < a.Length && s[json] == '/' && Compacting(s, a[..], into, json, rest)
    requires CommentEnd(s[json + 1..]).Some?
    ensures json < j <= |s| && Compacting(s, a[..], into, j, rest) && Some(s[j..]) == CommentEnd(s[json + 1..])
  {
    hide Compacting;
    j := json;
    Reads(s, a[..], into, j, rest);
    while a[j] != NUL && !(a[j] == '*' && a[j + 1] == '/')
      invariant json <= j <= |s| && Compacting(s, a[..], into, j, rest) && (a[j] == NUL <==> j == |s|)
      invariant j < |s| ==> a[j] == s[j]
      invariant j == json || CommentEnd(s[json + 1..]) == CommentEnd(s[j..])
      decreases |s| - j
    {
      Reads(s, a[..], into, j, rest);
      Dropped(s, a[..], into, j, rest, j + 1);
      j := j + 1;
      Reads(s, a[..], into, j, rest);
    }
    Reads(s, a[..], into, j, rest);
    Dropped(s, a[..], into, j, rest, j + 2);
    j := j + 2;
  }

  /** What cJSON_Minify does at s[json..]. */
  lemma MinifyAt(s: string, json: nat)
    requires json < |s| && Minify(s[json..]).Some?
    ensures var r := Minify(s[json..]);
            if IsSpace(s[json]) then r == Minify(s[json + 1..])
            else if s[json] == '/' && json + 1 < |s| && s[json + 1] == '/' then r == Minify(LineEnd(s[json + 2..]))
            else if s[json] == '/' && json + 1 < |s| && s[json + 1] == '*' then
              CommentEnd(s[json + 1..]).Some? && r == Minify(CommentEnd(s[json + 1..]).value)
            else if s[json] == '\"' then r == Put("\"", MinifyString(s[json + 1..]))
            else r == Put([s[json]], Minify(s[json + 1..]))
  {
    Behind(s, json, 0);
    Behind(s, json, 1);
    if json + 1 < |s| { Behind(s, json, 2); }
  }

  /** What is copied inside a string literal: a backslash takes the next character along. */
  lemma StringAtStep(s: string, json: nat)
    requires json <= |s| && MinifyString(s[json..]).Some?
    ensures json < |s|
    ensures var r := MinifyString(s[json..]);
            if s[json] == '\"' then r == Put("\"", Minify(s[json + 1..]))
            else if s[json] == '\\' then
              && json + 1 < |s| && r == Put(['\\'], Put([s[json + 1]], MinifyString(s[json + 2..])))
            else r == Put([s[json]], MinifyString(s[json + 1..]))
  {
    if json < |s| {
      Behind(s, json, 0);
      Behind(s, json, 1);
      if s[json] == '\\' && json + 1 < |s| {
        Behind(s, json, 2);
        assert s[json..][..2] == ['\\'] + [s[json + 1]];
        PutPut(['\\'], [s[json + 1]], MinifyString(s[json + 2..]));
      }
    }
  }

  /** A string literal, up to and with its closing quote. */
  method CopyString(a: array<char>, ghost s: string, into: nat, json: nat) returns (i: nat, j: nat)
    requires Text(s) && json < |s| < a.Length && s[json] == '\"'
    requires Compacting(s, a[..], into, json, Put("\"", MinifyString(s[json + 1..])))
    modifies a
    ensures json < j <= |s| && Compacting(s, a[..], i, j, Minify(s[j..]))
    ensures forall k :: |s| <= k < a.Length ==> a[k] == old(a[k])
  {
    hide Compacting, MinifyString, Minify, Put;
    i, j := Copy(a, s, into, json, MinifyString(s[json + 1..]));
    StringGoesOn(s, a[..], i, j);
    while a[j] != NUL && a[j] != '\"'
      invariant json < j < |s| && Compacting(s, a[..], i, j, MinifyString(s[j..])) && a[j] == s[j] != NUL
      invariant MinifyString(s[j..]).Some?
      invariant forall k :: |s| <= k < a.Length ==> a[k] == old(a[k])
      decreases |s| - j
    {
      StringAtStep(s, j);
      if a[j] == '\\' {
        i, j := Copy(a, s, i, j, Put([s[j + 1]], MinifyString(s[j + 2..])));
        i, j := Copy(a, s, i, j, MinifyString(s[j + 1..]));
      } else {
        i, j := Copy(a, s, i, j, MinifyString(s[j + 1..]));
      }
      StringGoesOn(s, a[..], i, j);
    }
    StringAtStep(s, j);
    i, j := Copy(a, s, i, j, Minify(s[j + 1..]));
  }

  lemma StringGoesOn(s: string, b: string, into: nat, json: nat)
    requires json <= |s| && Text(s) && Compacting(s, b, into, json, MinifyString(s[json..]))
    ensures json < |s| && MinifyString(s[json..]).Some? && b[json] == s[json] != NUL
  {
    Reads(s, b, into, json, MinifyString(s[json..]));
  }

  /** cJSON_Minify on a text of n characters and its NUL. A comment or a string that does
      not end would make the source read past the NUL. */
  method MinifyInPlace(a: array<char>, n: nat) returns (m: nat)
    requires n < a.Length && Text(a[..n]) && a[n] == NUL && Minify(a[..n]).Some?
    modifies a
    ensures m <= n && Minify(old(a[..n])) == Some(a[..m]) && a[m] == NUL
    ensures forall k :: n < k < a.Length ==> a[k] == old(a[k])
  {
    hide Compacting, MinifyString, Minify, Put;
    ghost var s := a[..n];
    var into: nat, json: nat := 0, 0;
    Begin(a, s);
    while a[json] != NUL
      invariant json <= |s| && Compacting(s, a[..], into, json, Minify(s[json..])) && (a[json] == NUL <==> json == |s|)
      invariant forall k :: n <= k < a.Length ==> a[k] == old(a[k])
      decreases |s| - json
    {
      Reads(s, a[..], into, json, Minify(s[json..]));
      MinifyAt(s, json);
      if IsSpace(a[json]) {
        Dropped(s, a[..], into, json, Minify(s[json + 1..]), json + 1);
        json := json + 1;
      } else if a[json] == '/' && a[json + 1] == '/' {
        json := SkipLine(a, s, into, json, Minify(s[json..]));
      } else if a[json] == '/' && a[json + 1] == '*' {
        json := SkipComment(a, s, into, json, Minify(s[json..]));
      } else if a[json] == '\"' {
        into, json := CopyString(a, s, into, json);
      } else {
        into, json := Copy(a, s, into, json, Minify(s[json + 1..]));
      }
      Reads(s, a[..], into, json, Minify(s[json..]));
    }
    End(a, s, into, json);
    a[into] := NUL;
    m := into;
  }

  lemma Begin(a: array<char>, s: string)
    requires |s| < a.Length && s == a[..|s|] && a[|s|] == NUL && Minify(s).Some? && Text(s)
    ensures Compacting(s, a[..], 0, 0, Minify(s[0..])) && (a[0] == NUL <==> |s| == 0)
  {
    assert s[0..] == s && a[..][0..|s|] == s && a[..][..0] == "";
    PutNothing(Minify(s));
    assert |s| > 0 ==> s[0] == a[0];
  }

  lemma End(a: array<char>, s: string, into: nat, json: nat)
    requires json == |s| && Compacting(s, a[..], into, json, Minify(s[json..]))
    ensures into <= |s| && Minify(s) == Some(a[..into])
  {
    assert s[json..] == "" && Minify("") == Some("");
    assert a[..][..into] == a[..into] && a[..into] + "" == a[..into];
  }
}
