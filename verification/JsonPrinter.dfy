/** The printers of cJSON.c on character buffers: unbuffered, where every value
    gets its own allocation, and buffered, where one buffer grows by ensure. */
module JsonPrinter {
  import opened Chains
  import opened Json
  import opened JsonStrings
  import opened PowerOfTwo

  const NUL := '\0'

  // ---- buffers as values ----------------------------------------------------------

  /** b with text written at a place. */
  function Splice(b: string, at: nat, text: string): (r: string)
    requires at + |text| <= |b|
    ensures |r| == |b|
  {
    b[..at] + text + b[at + |text|..]
  }

  /** text stands in b from start on. */
  ghost predicate Shows(b: string, start: nat, text: string) {
    start + |text| <= |b| && b[start..start + |text|] == text
  }

  /** The C string in b from start on is text. */
  ghost predicate IsString(b: string, start: nat, text: string) {
    Shows(b, start, text + [NUL]) && NoNul(text)
  }

  predicate NoNul(text: string) {
    forall i :: 0 <= i < |text| ==> text[i] != NUL
  }

  /** Writing behind a text extends it and leaves what is in front alone. */
  lemma SpliceExtends(b: string, start: nat, text: string, more: string)
    requires Shows(b, start, text) && start + |text| + |more| <= |b|
    ensures Shows(Splice(b, start + |text|, more), start, text + more)
    ensures Splice(b, start + |text|, more)[..start] == b[..start]
  {
    var r, at := Splice(b, start + |text|, more), start + |text|;
    assert r[..at] == b[..at];
    assert r[start..at] == b[start..at];
    assert r[at..at + |more|] == more;
    assert r[start..at + |more|] == r[start..at] + r[at..at + |more|];
  }

  lemma ShowsPrefix(b: string, start: nat, text: string, more: string)
    requires Shows(b, start, text + more)
    ensures Shows(b, start, text)
  {
    assert b[start..start + |text|] == (text + more)[..|text|];
  }

  lemma ShowsJoin(b: string, start: nat, text: string, more: string)
    requires Shows(b, start, text) && Shows(b, start + |text|, more)
    ensures Shows(b, start, text + more)
  {
    var at := start + |text|;
    assert b[start..at + |more|] == b[start..at] + b[at..at + |more|];
  }

  /** Growing a buffer keeps what it shows. */
  lemma ShowsGrown(b: string, c: string, start: nat, text: string)
    requires Shows(b, start, text) && |b| <= |c| && c[..|b|] == b
    ensures Shows(c, start, text)
  {
    assert c[start..start + |text|] == b[start..start + |text|];
  }

  // ---- printed texts contain no NUL -----------------------------------------------

  lemma {:induction false} EscapeNoNul(s: string)
    requires Plain(s)
    ensures NoNul(EscapeAll(s))
  {
    if s != [] {
      EscapeNoNul(s[1..]);
      EscapeCharNoNul(s[0]);
    }
  }

  lemma EscapeCharNoNul(c: char)
    requires 0 < c as int < 256
    ensures NoNul(Escape(c))
  {
  }

  lemma IntNoNul(n: int)
    ensures NoNul(IntText(n))
  {
    DecimalValue(if n < 0 then -n else n);
  }

  lemma {:induction false} TabsNoNul(n: int)
    ensures NoNul(Tabs(n)) && |Tabs(n)| == if n > 0 then n else 0
    decreases if n > 0 then n else 0
  {
    if n > 0 { TabsNoNul(n - 1); }
  }

  lemma QuotedNoNul(s: string)
    requires Plain(s)
    ensures NoNul(Quoted(s))
  {
    EscapeNoNul(s);
  }

  lemma {:induction false} PrintNoNul(v: Json, depth: nat, fmt: bool)
    requires Tree(v)
    ensures NoNul(Print(v, depth, fmt))
    decreases v, 1
  {
    hide PrintItems, PrintMembers, IntText, Quoted, Tabs;
    match v {
      case Number(n) => IntNoNul(n);
      case Str(s) => QuotedNoNul(s);
      case Array(items) => ItemsNoNul(items, depth + 1, fmt);
      case Object(members) =>
        TabsNoNul(depth - 1);
        TabsNoNul(depth);
        MembersNoNul(members, depth + 1, fmt);
      case _ =>
    }
  }

  lemma {:induction false} ItemsNoNul(c: Nodes, depth: nat, fmt: bool)
    requires TreeItems(c)
    ensures NoNul(PrintItems(c, depth, fmt))
    decreases c, 0
  {
    hide Print;
    if c.Node? {
      PrintNoNul(c.value, depth, fmt);
      ItemsNoNul(c.next, depth, fmt);
    }
  }

  lemma {:induction false} MembersNoNul(c: Members, depth: nat, fmt: bool)
    requires TreeMembers(c)
    ensures NoNul(PrintMembers(c, depth, fmt))
    decreases c, 0
  {
    hide Print, Quoted, Tabs;
    if c.Member? {
      TabsNoNul(depth);
      QuotedNoNul(c.name);
      PrintNoNul(c.value, depth, fmt);
      MembersNoNul(c.next, depth, fmt);
    }
  }

  // ---- print_string_ptr ---------------------------------------------------------------

  /** The first loop: is there anything to escape? */
  method NeedsEscape(s: string) returns (flag: bool)
    requires Plain(s)
    ensures !flag ==> EscapeAll(s) == s
  {
    flag := false;
    var i := 0;
    assert s[..0] == [];
    while i < |s|
      invariant 0 <= i <= |s|
      invariant !flag ==> EscapeAll(s[..i]) == s[..i]
    {
      if s[i] < ' ' || s[i] == '\"' || s[i] == '\\' {
        flag := true;
      }
      EscapeSplit(s[..i], s[i]);
      assert s[..i + 1] == s[..i] + [s[i]];
      i := i + 1;
    }
    assert s[..i] == s;
  }

  /** The counting loop. */
  method EscapedLength(s: string) returns (len: nat)
    requires Plain(s)
    ensures len == |EscapeAll(s)|
  {
    len := 0;
    var i := 0;
    assert s[..0] == [];
    while i < |s|
      invariant 0 <= i <= |s|
      invariant len == |EscapeAll(s[..i])|
    {
      len := len + 1;
      var token := s[i];
      if token == '\"' || token == '\\' || token == BACKSPACE || token == FORMFEED || token == '\n' || token == '\r' || token == '\t' {
        len := len + 1;
      } else if token < ' ' {
        len := len + 5;
      }
      EscapeSplit(s[..i], s[i]);
      assert s[..i + 1] == s[..i] + [s[i]];
      i := i + 1;
    }
    assert s[..i] == s;
  }

  lemma {:induction false} EscapeSplit(a: string, c: char)
    requires Plain(a + [c]) && Plain(a) && 0 < c as int < 256
    ensures EscapeAll(a + [c]) == EscapeAll(a) + Escape(c)
  {
    if a == [] {
      assert a + [c] == [c] && [c][1..] == [];
    } else {
      assert Plain(a[1..] + [c]) by {
        assert a[1..] + [c] == (a + [c])[1..];
      }
      EscapeSplit(a[1..], c);
      assert (a + [c])[1..] == a[1..] + [c];
    }
  }

  /** The writing loop: the escaped string goes to out[at..]. */
  method WriteEscaped(out: array<char>, at: nat, s: string) returns (ptr: nat)
    requires Plain(s) && at + |EscapeAll(s)| <= out.Length
    modifies out
    ensures ptr == at + |EscapeAll(s)| && out[..] == Splice(old(out[..]), at, EscapeAll(s))
  {
    hide Splice;
    ghost var b := out[..];
    ptr := at;
    var i := 0;
    SpliceNothing(b, at);
    assert s[..0] == [];
    while i < |s|
      invariant 0 <= i <= |s| && ptr == at + |EscapeAll(s[..i])| <= at + |EscapeAll(s)| <= out.Length
      invariant out[..] == Splice(b, at, EscapeAll(s[..i]))
    {
      EscapeSplit(s[..i], s[i]);
      assert s[..i + 1] == s[..i] + [s[i]];
      EscapePrefix(s, i + 1);
      SpliceSplice(b, at, EscapeAll(s[..i]), Escape(s[i]));
      ptr := Store(out, ptr, Escape(s[i]));
      i := i + 1;
    }
    assert s[..i] == s;
  }

  lemma {:induction false} EscapePrefix(s: string, i: nat)
    requires Plain(s) && i <= |s|
    ensures |EscapeAll(s[..i])| <= |EscapeAll(s)|
  {
    if i > 0 {
      assert s[..i][0] == s[0] && s[..i][1..] == s[1..][..i - 1];
      EscapePrefix(s[1..], i - 1);
    }
  }

  lemma SpliceNothing(b: string, at: nat)
    requires at <= |b|
    ensures Splice(b, at, "") == b
  {
  }

  lemma SpliceSplice(b: string, at: nat, text: string, more: string)
    requires at + |text| + |more| <= |b|
    ensures Splice(Splice(b, at, text), at + |text|, more) == Splice(b, at, text + more)
  {
  }

  /** memcpy or strcpy of a text, without a final NUL; returns the place behind it. */
  method Store(out: array<char>, at: nat, text: string) returns (ptr: nat)
    requires at + |text| <= out.Length
    modifies out
    ensures ptr == at + |text| && out[..] == Splice(old(out[..]), at, text)
  {
    ghost var b := out[..];
    var i := 0;
    while i < |text|
      invariant 0 <= i <= |text|
      invariant forall k :: 0 <= k < out.Length ==> out[k] == if at <= k < at + i then text[k - at] else b[k]
    {
      out[at + i] := text[i];
      i := i + 1;
    }
    ptr := at + |text|;
  }

  /** Both branches of print_string_ptr on an allocation of len + 3 characters. */
  method WriteQuoted(out: array<char>, at: nat, s: string, flag: bool)
    requires Plain(s) && at + |Quoted(s)| + 1 <= out.Length && (!flag ==> EscapeAll(s) == s)
    modifies out
    ensures out[..] == Splice(old(out[..]), at, Quoted(s) + [NUL])
  {
    hide Splice, EscapeAll;
    ghost var b := out[..];
    var ptr := Store(out, at, "\"");
    SpliceSplice(b, at, "\"", EscapeAll(s));
    if flag {
      ptr := WriteEscaped(out, ptr, s);
    } else {
      ptr := Store(out, ptr, s);
    }
    SpliceSplice(b, at, "\"" + EscapeAll(s), "\"");
    ptr := Store(out, ptr, "\"");
    SpliceSplice(b, at, Quoted(s), [NUL]);
    ptr := Store(out, ptr, [NUL]);
  }

  /** The size print_string_ptr allocates is exactly the size of the literal with its
      terminating NUL. */
  method QuotedSize(s: string) returns (size: nat, flag: bool)
    requires Plain(s)
    ensures size == |Quoted(s)| + 1 && (!flag ==> EscapeAll(s) == s)
  {
    flag := NeedsEscape(s);
    var len := |s|;
    if flag {
      len := EscapedLength(s);
    }
    size := len + 3;
  }

  /** print_string_ptr without a buffer. */
  method PrintStringNew(s: string) returns (out: array<char>)
    requires Plain(s)
    ensures fresh(out) && out[..] == Quoted(s) + [NUL]
  {
    var size, flag := QuotedSize(s);
    out := new char[size];
    WriteQuoted(out, 0, s, flag);
  }

  // ---- the room a text needs ------------------------------------------------------------

  function Max(a: int, b: int): int {
    if a >= b then a else b
  }

  /** The greatest room that the print functions ask ensure for, counted from where the
      text of the value starts. */
  ghost function Peak(v: Json, depth: nat, fmt: bool): (n: nat)
    requires Tree(v)
    decreases v, 1
  {
    match v
    case Null => 5
    case False => 6
    case True => 5
    case Number(n) => if n == 0 then 2 else 21
    case Str(s) => |Quoted(s)| + 1
    case Array(items) =>
      if items.NoNode? then 3 else Max(1 + PeakItems(items, depth + 1, fmt), |Print(v, depth, fmt)| + 1)
    case Object(members) =>
      if members.NoMember? then if fmt then depth + 4 else 3
      else Max((if fmt then 2 else 1) + PeakMembers(members, depth + 1, fmt), |Print(v, depth, fmt)| + 1)
  }

  ghost function PeakItems(c: Nodes, depth: nat, fmt: bool): nat
    requires TreeItems(c)
    decreases c, 1
  {
    if c.NoNode? then 0
    else Max(Peak(c.value, depth, fmt),
             |Print(c.value, depth, fmt)| + |Comma(c.next, fmt)| + PeakItems(c.next, depth, fmt))
  }

  ghost function PeakMembers(c: Members, depth: nat, fmt: bool): nat
    requires TreeMembers(c)
    decreases c, 1
  {
    if c.NoMember? then 0
    else Max(PeakMember(c, depth, fmt), |MemberText(c, depth, fmt)| + PeakMembers(c.next, depth, fmt))
  }

  ghost function PeakMember(c: Members, depth: nat, fmt: bool): nat
    requires TreeMembers(c) && c.Member?
    decreases c, 0
  {
    Max(|Before(c.name, depth, fmt)| + Peak(c.value, depth, fmt), |MemberText(c, depth, fmt)| + 1)
  }

  ghost function MemberText(c: Members, depth: nat, fmt: bool): string
    requires TreeMembers(c) && c.Member?
  {
    Before(c.name, depth, fmt) + Print(c.value, depth, fmt) + After(c.next, fmt)
  }

  /** It exceeds the text by its NUL at least and by 20 characters at most. */
  lemma {:induction false} PeakNear(v: Json, depth: nat, fmt: bool)
    requires Tree(v)
    ensures |Print(v, depth, fmt)| + 1 <= Peak(v, depth, fmt) <= |Print(v, depth, fmt)| + 20
    decreases v, 1
  {
    hide PrintItems, PrintMembers, PeakItems, PeakMembers, IntText, Quoted, Tabs;
    match v {
      case Number(n) => IntShort(n);
      case Array(items) => PeakItemsNear(items, depth + 1, fmt);
      case Object(members) =>
        TabsNoNul(depth - 1);
        PeakMembersNear(members, depth + 1, fmt);
        if members.Member? { ObjectText(members, depth, fmt); }
      case _ =>
    }
  }

  lemma {:induction false} PeakItemsNear(c: Nodes, depth: nat, fmt: bool)
    requires TreeItems(c)
    ensures PeakItems(c, depth, fmt) <= |PrintItems(c, depth, fmt)| + 20
    decreases c, 0
  {
    hide Print, Peak;
    if c.Node? {
      PeakNear(c.value, depth, fmt);
      PeakItemsNear(c.next, depth, fmt);
    }
  }

  lemma {:induction false} PeakMembersNear(c: Members, depth: nat, fmt: bool)
    requires TreeMembers(c)
    ensures PeakMembers(c, depth, fmt) <= |PrintMembers(c, depth, fmt)| + 20
    decreases c, 0
  {
    hide Print, Peak, Before, After;
    if c.Member? {
      PeakNear(c.value, depth, fmt);
      PeakMembersNear(c.next, depth, fmt);
    }
  }

  // ---- the growing buffer ---------------------------------------------------------------

  class PrintBuffer {
    var buffer: array<char>   // an empty one stands for the null pointer
    var offset: nat

    /** The largest sum of offset and need that ensure can meet. */
    ghost function Reach(): nat
      reads this
    {
      Max(buffer.Length, TOP)
    }

    /** The text so far ends at the offset. */
    ghost predicate Ready(start: nat, text: string)
      reads this, buffer
    {
      0 < buffer.Length && start + |text| == offset <= buffer.Length && Shows(buffer[..], start, text)
    }

    /** Text written by a print function: all of it stands in the buffer with its NUL,
        the offset is somewhere inside. */
    ghost predicate Printed(start: nat, text: string)
      reads this, buffer
    {
      start <= offset <= start + |text| && IsString(buffer[..], start, text)
    }

    /** What stood in front of start still does, and the reach is what it was. */
    ghost predicate Keeps(start: nat, b: string, reach: nat)
      reads this, buffer
    {
      && start <= |b| && 0 < buffer.Length && offset <= buffer.Length && start <= buffer.Length
      && buffer[..start] == b[..start] && Reach() == reach
    }

    /** malloc gives null for 0, and for a negative size, which it takes as 2^31 or more. */
    constructor (prebuffer: int)
      ensures fresh(buffer) && buffer.Length == Max(prebuffer, 0) && offset == 0
    {
      buffer := new char[Max(prebuffer, 0)];
      offset := 0;
    }

    /** ensure: room for `needed` characters behind the offset; when the new size is
        negative malloc fails, and the buffer is freed and null from then on. */
    method Ensure(needed: nat) returns (ok: bool)
      requires buffer.Length > 0 ==> offset <= buffer.Length && offset + needed <= INT_MAX
      modifies this, buffer
      ensures buffer == old(buffer) || fresh(buffer)
      ensures ok <==> old(0 < buffer.Length && offset + needed <= Reach())
      ensures !ok ==> buffer.Length == 0
      ensures ok ==> offset == old(offset) && offset + needed <= buffer.Length && 0 < buffer.Length
      ensures ok ==> Reach() == old(Reach())
      ensures ok ==> buffer.Length >= old(buffer.Length) && buffer[..old(buffer.Length)] == old(buffer[..])
      ensures ok ==> buffer.Length == if old(offset + needed <= buffer.Length) then old(buffer.Length)
                                      else Grown(offset + needed, 1)
    {
      if buffer.Length == 0 { return false; }
      var total := needed + offset;
      if total <= buffer.Length { return true; }
      var newsize := NewSize(total);
      if newsize < 0 {
        buffer := new char[0];
        return false;
      }
      var newbuffer := new char[newsize];
      var i := 0;
      while i < buffer.Length
        invariant 0 <= i <= buffer.Length <= newbuffer.Length
        invariant newbuffer[..i] == buffer[..i]
        modifies newbuffer
      {
        newbuffer[i] := buffer[i];
        i := i + 1;
      }
      buffer := newbuffer;
      ok := true;
    }

    /** update: the offset behind the C string that starts at the offset. */
    method Update(ghost start: nat, ghost text: string) returns (end: nat)
      requires buffer.Length > 0 ==> Printed(start, text)
      ensures end == if buffer.Length > 0 then start + |text| else 0
    {
      if buffer.Length == 0 { return 0; }
      end := offset;
      AtNul(start, text);
      while buffer[end] != NUL
        invariant offset <= end <= start + |text| < buffer.Length
        decreases start + |text| - end
      {
        end := end + 1;
      }
      NotNul(start, text, end);
    }

    lemma AtNul(start: nat, text: string)
      requires Printed(start, text)
      ensures start + |text| < buffer.Length && buffer[start + |text|] == NUL
    {
      var b := buffer[..];
      assert b[start..start + |text| + 1][|text|] == (text + [NUL])[|text|];
    }

    lemma NotNul(start: nat, text: string, end: nat)
      requires Printed(start, text) && start <= end <= start + |text| && end < buffer.Length && buffer[end] == NUL
      ensures end == start + |text|
    {
      var b := buffer[..];
      assert b[start..start + |text| + 1][end - start] == (text + [NUL])[end - start];
    }

    /** ensure, write `more` at the offset and advance the offset. */
    method Put(needed: nat, more: string, advance: nat, ghost start: nat, ghost text: string) returns (ok: bool)
      requires buffer.Length > 0 ==> Ready(start, text) && offset + needed <= INT_MAX
      requires |more| <= needed && advance <= |more|
      modifies this, buffer
      ensures buffer == old(buffer) || fresh(buffer)
      ensures ok <==> old(0 < buffer.Length && offset + needed <= Reach())
      ensures !ok ==> buffer.Length == 0
      ensures ok ==> offset == old(offset) + advance && Keeps(start, old(buffer[..]), old(Reach()))
      ensures ok ==> Shows(buffer[..], start, text + more)
    {
      hide Splice, Shows, Grown;
      ghost var b := buffer[..];
      ok := Ensure(needed);
      if !ok { return; }
      ghost var c := buffer[..];
      assert c[..|b|] == b;
      ShowsGrown(b, c, start, text);
      SpliceExtends(c, start, text, more);
      var ptr := Store(buffer, offset, more);
      offset := offset + advance;
      assert c[..start] == b[..start];
    }

    /** The same with a NUL behind the text that the next write covers. */
    method PutString(needed: nat, more: string, ghost start: nat, ghost text: string) returns (ok: bool)
      requires buffer.Length > 0 ==> Ready(start, text) && offset + needed <= INT_MAX
      requires |more| + 1 <= needed
      modifies this, buffer
      ensures buffer == old(buffer) || fresh(buffer)
      ensures ok <==> old(0 < buffer.Length && offset + needed <= Reach())
      ensures !ok ==> buffer.Length == 0
      ensures ok ==> Ready(start, text + more) && Keeps(start, old(buffer[..]), old(Reach()))
    {
      hide Shows;
      ok := Put(needed, more + [NUL], |more|, start, text);
      if !ok { return; }
      assert text + (more + [NUL]) == (text + more) + [NUL];
      ShowsPrefix(buffer[..], start, text + more, [NUL]);
    }

    /** The last write of a print function: the offset stays in front of it. */
    method Finish(needed: nat, more: string, ghost start: nat, ghost text: string) returns (ok: bool)
      requires buffer.Length > 0 ==> Ready(start, text) && offset + needed <= INT_MAX
      requires |more| + 1 <= needed && NoNul(text + more)
      modifies this, buffer
      ensures buffer == old(buffer) || fresh(buffer)
      ensures ok <==> old(0 < buffer.Length && offset + needed <= Reach())
      ensures !ok ==> buffer.Length == 0
      ensures ok ==> Printed(start, text + more) && Keeps(start, old(buffer[..]), old(Reach()))
    {
      hide Shows;
      ok := Put(needed, more + [NUL], 0, start, text);
      assert text + (more + [NUL]) == (text + more) + [NUL];
    }

    lemma Empty()
      requires offset <= buffer.Length
      ensures Shows(buffer[..], offset, "")
    {
    }

    /** print_string_ptr with a buffer. */
    method PrintString(s: string) returns (ok: bool)
      requires Plain(s) && (buffer.Length > 0 ==> offset <= buffer.Length && offset + |Quoted(s)| + 1 <= INT_MAX)
      modifies this, buffer
      ensures buffer == old(buffer) || fresh(buffer)
      ensures ok <==> old(0 < buffer.Length && offset + |Quoted(s)| + 1 <= Reach())
      ensures !ok ==> buffer.Length == 0
      ensures ok ==> offset == old(offset) && Printed(offset, Quoted(s)) && Keeps(offset, old(buffer[..]), old(Reach()))
    {
      hide Splice, Shows, Grown, Quoted;
      ghost var b := buffer[..];
      var size, flag := QuotedSize(s);
      ok := Ensure(size);
      if !ok { return; }
      ghost var c := buffer[..];
      Empty();
      SpliceExtends(c, offset, "", Quoted(s) + [NUL]);
      WriteQuoted(buffer, offset, s, flag);
      QuotedNoNul(s);
      assert "" + (Quoted(s) + [NUL]) == Quoted(s) + [NUL];
      assert c[..offset] == b[..offset];
    }

    lemma Kept(b: string, start: nat, text: string)
      requires Shows(b, start, text) && start + |text| <= buffer.Length && buffer[..start + |text|] == b[..start + |text|]
      ensures Shows(buffer[..], start, text) && start <= |b| && buffer[..start] == b[..start]
    {
      var c := buffer[..];
      assert c[start..start + |text|] == c[..start + |text|][start..];
      assert c[..start] == c[..start + |text|][..start];
    }

    /** Advance over a text printed behind the one so far, or give up if there is no
        buffer any more. */
    method Advance(ghost b: string, ghost start: nat, ghost text: string, ghost t: string, ghost reach: nat)
      requires buffer.Length > 0 ==>
                 Printed(start + |text|, t) && Keeps(start + |text|, b, reach) && Shows(b, start, text)
      modifies `offset
      ensures buffer.Length > 0 ==> Ready(start, text + t) && Keeps(start, b, reach)
    {
      hide Shows;
      offset := Update(start + |text|, t);
      if buffer.Length > 0 {
        Kept(b, start, text);
        ShowsPrefix(buffer[..], start + |text|, t, [NUL]);
        Fits(start + |text|, t);
        ShowsJoin(buffer[..], start, text, t);
      }
    }

    /** Print a value behind the text so far and advance over it; what print_value
        returns is not looked at. */
    method Append(v: Json, depth: nat, fmt: bool, ghost start: nat, ghost text: string)
      requires Tree(v) && Ready(start, text) && offset + Peak(v, depth, fmt) <= INT_MAX
      modifies this, buffer
      ensures buffer == old(buffer) || fresh(buffer)
      ensures buffer.Length > 0 <==> old(offset + Peak(v, depth, fmt) <= Reach())
      ensures buffer.Length > 0 ==>
                Ready(start, text + Print(v, depth, fmt)) && Keeps(start, old(buffer[..]), old(Reach()))
      decreases v, 2
    {
      hide Shows, Print, Peak;
      var ok := PrintValue(v, depth, fmt);
      Advance(old(buffer[..]), start, text, Print(v, depth, fmt), old(Reach()));
    }

    lemma Fits(start: nat, text: string)
      requires Shows(buffer[..], start, text)
      ensures start + |text| <= buffer.Length
    {
    }

    /** print_array with a buffer. */
    method PrintArray(items: Nodes, depth: nat, fmt: bool) returns (ok: bool)
      requires TreeItems(items)
      requires buffer.Length > 0 ==> offset <= buffer.Length && offset + Peak(Array(items), depth, fmt) <= INT_MAX
      modifies this, buffer
      ensures buffer == old(buffer) || fresh(buffer)
      ensures ok <==> old(0 < buffer.Length && offset + Peak(Array(items), depth, fmt) <= Reach())
      ensures !ok ==> buffer.Length == 0
      ensures ok ==>
                Printed(old(offset), Print(Array(items), depth, fmt)) && Keeps(old(offset), old(buffer[..]), old(Reach()))
      decreases items, 5
    {
      hide Shows, PrintItems, PeakItems;
      if buffer.Length > 0 { Empty(); }
      ghost var start := offset;
      PrintNoNul(Array(items), depth, fmt);
      if items.NoNode? {
        assert "" + "[]" == "[]";
        ok := Finish(3, "[]", start, "");
        return;
      }
      ok := Put(1, "[", 1, start, "");
      if !ok { return; }
      assert "" + "[" == "[";
      ok := PrintItemsLoop(items, depth + 1, fmt, start);
      if !ok { return; }
      ok := Finish(2, "]", start, "[" + PrintItems(items, depth + 1, fmt));
    }

    /** The loop over the items; without a buffer it ends early or with its last item. */
    method PrintItemsLoop(items: Nodes, depth: nat, fmt: bool, ghost start: nat) returns (ok: bool)
      requires TreeItems(items) && Ready(start, "[") && offset + PeakItems(items, depth, fmt) <= INT_MAX
      modifies this, buffer
      ensures buffer == old(buffer) || fresh(buffer)
      ensures buffer.Length > 0 <==> old(offset + PeakItems(items, depth, fmt) <= Reach())
      ensures buffer.Length > 0 ==>
                && ok && Ready(start, "[" + PrintItems(items, depth, fmt))
                && Keeps(start, old(buffer[..]), old(Reach()))
      decreases items, 4
    {
      hide Shows, Print, Peak, PrintItems, PeakItems;
      ghost var text, full, peak := "[", "[" + PrintItems(items, depth, fmt), offset + PeakItems(items, depth, fmt);
      ghost var b, reach := buffer[..], Reach();
      var child := items;
      while child.Node?
        invariant TreeItems(child) && (child.Node? ==> child == items || child < items)
        invariant buffer == old(buffer) || fresh(buffer)
        invariant buffer.Length == 0 ==> child.NoNode? && peak > reach
        invariant buffer.Length > 0 ==> Ready(start, text) && Keeps(start, b, reach)
        invariant full == text + PrintItems(child, depth, fmt)
        invariant buffer.Length > 0 ==>
                    var now := start + |text| + PeakItems(child, depth, fmt);
                    now <= INT_MAX && (peak <= reach <==> now <= reach)
        decreases child
      {
        ItemsText(text, child, depth, fmt);
        ItemsPeak(child, depth, fmt);
        Append(child.value, depth, fmt, start, text);
        text := text + Print(child.value, depth, fmt);
        if child.next.Node? {
          var next := PutString(if fmt then 3 else 2, Comma(child.next, fmt), start, text);
          if !next { return false; }
          text := text + Comma(child.next, fmt);
        }
        child := child.next;
      }
      LastItem(depth, fmt);
      assert text + "" == text;
      ok := true;
    }

    /** Print a name behind the text so far and advance over it. */
    method AppendQuoted(name: string, ghost start: nat, ghost text: string)
      requires Plain(name) && Ready(start, text) && offset + |Quoted(name)| + 1 <= INT_MAX
      modifies this, buffer
      ensures buffer == old(buffer) || fresh(buffer)
      ensures buffer.Length > 0 <==> old(offset + |Quoted(name)| + 1 <= Reach())
      ensures buffer.Length > 0 ==> Ready(start, text + Quoted(name)) && Keeps(start, old(buffer[..]), old(Reach()))
    {
      hide Shows, Quoted;
      var ok := PrintString(name);
      Advance(old(buffer[..]), start, text, Quoted(name), old(Reach()));
    }

    /** The first half of a round of that loop: indentation, name and colon. */
    method PrintName(name: string, depth: nat, fmt: bool, ghost start: nat, ghost text: string) returns (ok: bool)
      requires Plain(name) && Ready(start, text) && offset + |Before(name, depth, fmt)| <= INT_MAX
      modifies this, buffer
      ensures buffer == old(buffer) || fresh(buffer)
      ensures ok <==> old(offset + |Before(name, depth, fmt)| <= Reach())
      ensures !ok ==> buffer.Length == 0
      ensures ok ==> Ready(start, text + Before(name, depth, fmt)) && Keeps(start, old(buffer[..]), old(Reach()))
    {
      hide Shows, Quoted, Tabs, Before;
      ghost var t := text;
      BeforeLength(name, depth, fmt);
      if fmt {
        TabsNoNul(depth);
        ok := Put(depth, Tabs(depth), depth, start, t);
        if !ok { return; }
        t := t + Tabs(depth);
      }
      AppendQuoted(name, start, t);
      t := t + Quoted(name);
      var colon := if fmt then ":\t" else ":";
      ok := Put(if fmt then 2 else 1, colon, |colon|, start, t);
      if !ok { return; }
      BeforeText(text, t + colon, name, depth, fmt);
    }

    /** One round of the loop over the members of an object. */
    method PrintMember(c: Members, depth: nat, fmt: bool, ghost start: nat, ghost text: string) returns (ok: bool)
      requires TreeMembers(c) && c.Member? && Ready(start, text) && offset + PeakMember(c, depth, fmt) <= INT_MAX
      modifies this, buffer
      ensures buffer == old(buffer) || fresh(buffer)
      ensures ok <==> old(offset + PeakMember(c, depth, fmt) <= Reach())
      ensures !ok ==> buffer.Length == 0
      ensures ok ==> Ready(start, text + MemberText(c, depth, fmt)) && Keeps(start, old(buffer[..]), old(Reach()))
      decreases c, 3
    {
      hide Shows, Print, Peak, Before, After;
      PeakNear(c.value, depth, fmt);
      ok := PrintName(c.name, depth, fmt, start, text);
      if !ok { return; }
      ghost var t := text + Before(c.name, depth, fmt);
      Append(c.value, depth, fmt, start, t);
      t := t + Print(c.value, depth, fmt);
      var len := (if fmt then 1 else 0) + if c.next.Member? then 1 else 0;
      AfterLength(c.next, fmt);
      ok := PutString(len + 1, After(c.next, fmt), start, t);
      MemberParts(text, c, depth, fmt);
    }

    static lemma BeforeText(text: string, t: string, name: string, depth: nat, fmt: bool)
      requires Plain(name)
      requires t == (if fmt then text + Tabs(depth) else text) + Quoted(name) + (if fmt then ":\t" else ":")
      ensures t == text + Before(name, depth, fmt)
    {
      hide Quoted, Tabs;
      if !fmt { assert text + "" == text && "" + Quoted(name) == Quoted(name); }
    }

    /** print_object with a buffer. */
    method PrintObject(members: Members, depth: nat, fmt: bool) returns (ok: bool)
      requires TreeMembers(members)
      requires buffer.Length > 0 ==> offset <= buffer.Length && offset + Peak(Object(members), depth, fmt) <= INT_MAX
      modifies this, buffer
      ensures buffer == old(buffer) || fresh(buffer)
      ensures ok <==> old(0 < buffer.Length && offset + Peak(Object(members), depth, fmt) <= Reach())
      ensures !ok ==> buffer.Length == 0
      ensures ok ==>
                Printed(old(offset), Print(Object(members), depth, fmt)) && Keeps(old(offset), old(buffer[..]), old(Reach()))
      decreases members, 5
    {
      hide Shows, PrintMembers, PeakMembers, Tabs, Print;
      if buffer.Length > 0 { Empty(); }
      ghost var start := offset;
      PrintNoNul(Object(members), depth, fmt);
      TabsNoNul(depth);
      if members.NoMember? {
        EmptyText(depth, fmt);
        var t := if fmt then "{\n" + Tabs(depth - 1) + "}" else "{}";
        assert "" + t == t;
        ok := Finish(if fmt then depth + 4 else 3, t, start, "");
        return;
      }
      var open := if fmt then "{\n" else "{";
      ObjectText(members, depth, fmt);
      ok := PutString(if fmt then 3 else 2, open, start, "");
      if !ok { return; }
      assert "" + open == open;
      ok := PrintMembersLoop(members, depth + 1, fmt, start, open);
      if !ok { return; }
      var close := if fmt then Tabs(depth) + "}" else "}";
      ok := Finish(if fmt then depth + 2 else 2, close, start, open + PrintMembers(members, depth + 1, fmt));
    }

    /** The loop over the members. */
    method PrintMembersLoop(members: Members, depth: nat, fmt: bool, ghost start: nat, ghost open: string) returns (ok: bool)
      requires TreeMembers(members) && Ready(start, open) && offset + PeakMembers(members, depth, fmt) <= INT_MAX
      modifies this, buffer
      ensures buffer == old(buffer) || fresh(buffer)
      ensures ok <==> old(offset + PeakMembers(members, depth, fmt) <= Reach())
      ensures !ok ==> buffer.Length == 0
      ensures ok ==>
                Ready(start, open + PrintMembers(members, depth, fmt)) && Keeps(start, old(buffer[..]), old(Reach()))
      decreases members, 4
    {
      hide Shows, PrintMembers, PeakMembers, PeakMember, MemberText;
      ghost var text, full := open, open + PrintMembers(members, depth, fmt);
      ghost var peak := offset + PeakMembers(members, depth, fmt);
      ghost var b, reach := buffer[..], Reach();
      var child := members;
      while child.Member?
        invariant TreeMembers(child) && (child.Member? ==> child == members || child < members)
        invariant buffer == old(buffer) || fresh(buffer)
        invariant Ready(start, text) && Keeps(start, b, reach)
        invariant full == text + PrintMembers(child, depth, fmt)
        invariant var now := start + |text| + PeakMembers(child, depth, fmt);
                  now <= INT_MAX && (peak <= reach <==> now <= reach)
        decreases child
      {
        MembersText(text, child, depth, fmt);
        MembersPeak(child, depth, fmt);
        ok := PrintMember(child, depth, fmt, start, text);
        if !ok { return; }
        text := text + MemberText(child, depth, fmt);
        child := child.next;
      }
      LastMember(depth, fmt);
      assert text + "" == text;
      ok := true;
    }

    /** print_value with a buffer: when the buffer reaches far enough or can grow to, the
        text of the value stands at the offset and everything in front is as before;
        otherwise, and if there was no buffer, the result is null. */
    method PrintValue(v: Json, depth: nat, fmt: bool) returns (ok: bool)
      requires Tree(v)
      requires buffer.Length > 0 ==> offset <= buffer.Length && offset + Peak(v, depth, fmt) <= INT_MAX
      modifies this, buffer
      ensures buffer == old(buffer) || fresh(buffer)
      ensures ok <==> old(0 < buffer.Length && offset + Peak(v, depth, fmt) <= Reach())
      ensures !ok ==> buffer.Length == 0
      ensures ok ==> Printed(old(offset), Print(v, depth, fmt)) && Keeps(old(offset), old(buffer[..]), old(Reach()))
      decreases v, 1
    {
      hide Shows, PrintItems, PrintMembers, PeakItems, PeakMembers, IntText, Quoted, Tabs;
      if buffer.Length > 0 { Empty(); }
      assert forall t: string :: "" + t == t;
      match v {
        case Null => ok := Finish(5, "null", offset, "");
        case False => ok := Finish(6, "false", offset, "");
        case True => ok := Finish(5, "true", offset, "");
        case Number(n) =>
          IntNoNul(n);
          IntShort(n);
          ok := Finish(if n == 0 then 2 else 21, IntText(n), offset, "");
        case Str(s) => ok := PrintString(s);
        case Array(items) => ok := PrintArray(items, depth, fmt);
        case Object(members) => ok := PrintObject(members, depth, fmt);
      }
    }
  }

  lemma ItemsPeak(c: Nodes, depth: nat, fmt: bool)
    requires TreeItems(c) && c.Node?
    ensures PeakItems(c, depth, fmt)
            == Max(Peak(c.value, depth, fmt),
                   |Print(c.value, depth, fmt)| + |Comma(c.next, fmt)| + PeakItems(c.next, depth, fmt))
    ensures |Comma(c.next, fmt)| == if c.next.NoNode? then 0 else if fmt then 2 else 1
    ensures if c.next.NoNode? then PeakItems(c.next, depth, fmt) == 0 else PeakItems(c.next, depth, fmt) > 1
    ensures |Print(c.value, depth, fmt)| < Peak(c.value, depth, fmt)
  {
    hide Print, Peak;
    PeakNear(c.value, depth, fmt);
    if c.next.Node? { PeakNear(c.next.value, depth, fmt); }
  }

  lemma MembersPeak(c: Members, depth: nat, fmt: bool)
    requires TreeMembers(c) && c.Member?
    ensures PeakMembers(c, depth, fmt)
            == Max(PeakMember(c, depth, fmt), |MemberText(c, depth, fmt)| + PeakMembers(c.next, depth, fmt))
  {
  }

  lemma BeforeLength(name: string, depth: nat, fmt: bool)
    requires Plain(name)
    ensures |Before(name, depth, fmt)| == if fmt then depth + |Quoted(name)| + 2 else |Quoted(name)| + 1
  {
    hide Quoted, Tabs;
    TabsNoNul(depth);
  }

  lemma AfterLength(next: Members, fmt: bool)
    ensures |After(next, fmt)| == (if fmt then 1 else 0) + if next.Member? then 1 else 0
  {
  }

  lemma MemberParts(text: string, c: Members, depth: nat, fmt: bool)
    requires TreeMembers(c) && c.Member?
    ensures text + Before(c.name, depth, fmt) + Print(c.value, depth, fmt) + After(c.next, fmt)
            == text + MemberText(c, depth, fmt)
    ensures |MemberText(c, depth, fmt)|
            == |Before(c.name, depth, fmt)| + |Print(c.value, depth, fmt)| + |After(c.next, fmt)|
  {
    hide Before, Print, After;
  }

  /** One round of the loop over the items, in the text. */
  lemma ItemsText(text: string, c: Nodes, depth: nat, fmt: bool)
    requires TreeItems(c) && c.Node?
    ensures var p := Print(c.value, depth, fmt);
            text + PrintItems(c, depth, fmt)
            == (if c.next.Node? then text + p + Comma(c.next, fmt) else text + p) + PrintItems(c.next, depth, fmt)
  {
    hide Print;
    if c.next.NoNode? { assert Comma(c.next, fmt) == ""; }
  }

  lemma LastItem(depth: nat, fmt: bool)
    ensures PrintItems(NoNode, depth, fmt) == "" && PeakItems(NoNode, depth, fmt) == 0
  {
  }

  lemma ObjectText(members: Members, depth: nat, fmt: bool)
    requires TreeMembers(members) && members.Member?
    ensures Print(Object(members), depth, fmt)
            == (if fmt then "{\n" else "{") + PrintMembers(members, depth + 1, fmt) + (if fmt then Tabs(depth) + "}" else "}")
  {
    hide PrintMembers, Tabs;
    var m := PrintMembers(members, depth + 1, fmt);
    assert ("{" + "\n") + m + Tabs(depth) + "}" == "{\n" + m + (Tabs(depth) + "}");
    assert ("{" + "") + m + "" + "}" == "{" + m + "}";
  }

  lemma EmptyText(depth: nat, fmt: bool)
    ensures Print(Object(NoMember), depth, fmt) == if fmt then "{\n" + Tabs(depth - 1) + "}" else "{}"
    ensures |if fmt then "{\n" + Tabs(depth - 1) + "}" else "{}"| < if fmt then depth + 4 else 3
  {
    TabsNoNul(depth - 1);
  }

  lemma MembersText(text: string, c: Members, depth: nat, fmt: bool)
    requires TreeMembers(c) && c.Member?
    ensures text + PrintMembers(c, depth, fmt) == text + MemberText(c, depth, fmt) + PrintMembers(c.next, depth, fmt)
  {
    hide Before, Print, After;
  }

  lemma LastMember(depth: nat, fmt: bool)
    ensures PrintMembers(NoMember, depth, fmt) == "" && PeakMembers(NoMember, depth, fmt) == 0
  {
  }

  lemma IntShort(n: int)
    requires Int32(n)
    ensures |IntText(n)| <= 11 && (n == 0 ==> IntText(n) == "0")
  {
    DecimalShort(if n < 0 then -n else n, 10, 10_000_000_000);
  }

  lemma {:induction false} DecimalShort(n: nat, k: nat, bound: nat)
    requires 0 < k && n < bound && Ten(k) == bound
    ensures |Decimal(n)| <= k
    decreases k
  {
    if n >= 10 {
      assert k > 1;
      DecimalShort(n / 10, k - 1, Ten(k - 1));
    }
  }

  function Ten(k: nat): nat {
    if k == 0 then 1 else 10 * Ten(k - 1)
  }

  // ---- printing without a buffer ------------------------------------------------------------

  /** The text of a C string. */
  method TextOf(out: array<char>, ghost text: string) returns (t: string)
    requires IsString(out[..], 0, text)
    ensures t == text
  {
    var n := 0;
    ghost var b := out[..];
    assert forall k :: 0 <= k <= |text| ==> b[k] == (text + [NUL])[k] by {
      assert b[0..|text| + 1] == b[..|text| + 1];
    }
    while out[n] != NUL
      invariant 0 <= n <= |text| < out.Length
      decreases |text| - n
    {
      n := n + 1;
    }
    t := out[..n];
    assert t == text;
  }

  /** An allocation of `size` characters holding a text. */
  method NewString(size: nat, text: string) returns (out: array<char>)
    requires |text| < size && NoNul(text)
    ensures fresh(out) && IsString(out[..], 0, text)
  {
    hide Splice;
    out := new char[size];
    var b := out[..];
    SpliceExtends(b, 0, "", text + [NUL]);
    assert "" + (text + [NUL]) == text + [NUL];
    var ptr := Store(out, 0, text + [NUL]);
  }

  /** strlen(entry)+2+(fmt?1:0) over the entries. */
  ghost function ItemSizes(c: Nodes, depth: nat, fmt: bool): nat
    requires TreeItems(c)
  {
    if c.NoNode? then 0 else |Print(c.value, depth, fmt)| + 2 + (if fmt then 1 else 0) + ItemSizes(c.next, depth, fmt)
  }

  ghost function ItemTexts(c: Nodes, depth: nat, fmt: bool): seq<string>
    requires TreeItems(c)
  {
    if c.NoNode? then [] else [Print(c.value, depth, fmt)] + ItemTexts(c.next, depth, fmt)
  }

  lemma {:induction false} ItemsFit(c: Nodes, depth: nat, fmt: bool)
    requires TreeItems(c)
    ensures |PrintItems(c, depth, fmt)| <= ItemSizes(c, depth, fmt)
    decreases c
  {
    hide Print;
    if c.Node? { ItemsFit(c.next, depth, fmt); }
  }

  ghost function MemberSizes(c: Members, depth: nat, fmt: bool): nat
    requires TreeMembers(c)
  {
    if c.NoMember? then 0
    else |Quoted(c.name)| + |Print(c.value, depth, fmt)| + 2 + (if fmt then 2 + depth else 0) + MemberSizes(c.next, depth, fmt)
  }

  ghost function NameTexts(c: Members): seq<string>
    requires TreeMembers(c)
  {
    if c.NoMember? then [] else [Quoted(c.name)] + NameTexts(c.next)
  }

  ghost function ValueTexts(c: Members, depth: nat, fmt: bool): seq<string>
    requires TreeMembers(c)
  {
    if c.NoMember? then [] else [Print(c.value, depth, fmt)] + ValueTexts(c.next, depth, fmt)
  }

  lemma {:induction false} MembersFit(c: Members, depth: nat, fmt: bool)
    requires TreeMembers(c)
    ensures |PrintMembers(c, depth, fmt)| <= MemberSizes(c, depth, fmt)
    decreases c
  {
    hide Print, Quoted, Tabs;
    if c.Member? {
      TabsNoNul(depth);
      MembersFit(c.next, depth, fmt);
    }
  }

  /** print_value without a buffer. */
  method PrintNew(v: Json, depth: nat, fmt: bool) returns (out: array<char>)
    requires Tree(v)
    ensures fresh(out) && IsString(out[..], 0, Print(v, depth, fmt))
    decreases v, 3
  {
    hide PrintItems, PrintMembers, IntText, Quoted, Tabs, Shows;
    match v {
      case Null => out := NewString(5, "null");
      case False => out := NewString(6, "false");
      case True => out := NewString(5, "true");
      case Number(n) =>
        IntNoNul(n);
        IntShort(n);
        out := NewString(if n == 0 then 2 else 21, IntText(n));
      case Str(s) =>
        out := PrintStringNew(s);
        QuotedNoNul(s);
        Whole(out[..], Quoted(s));
      case Array(items) => out := PrintArrayNew(items, depth, fmt);
      case Object(members) => out := PrintObjectNew(members, depth, fmt);
    }
  }

  lemma Whole(b: string, text: string)
    requires b == text + [NUL] && NoNul(text)
    ensures IsString(b, 0, text)
  {
    assert b[0..|b|] == b;
  }

  /** The first loop of print_array: the entries and the size of the whole. */
  method CollectItems(items: Nodes, depth: nat, fmt: bool) returns (len: nat, entries: seq<string>)
    requires TreeItems(items)
    ensures len == 5 + ItemSizes(items, depth, fmt) && entries == ItemTexts(items, depth, fmt)
    decreases items, 4
  {
    hide Print, Shows;
    var child := items;
    len, entries := 5, [];
    while child.Node?
      invariant TreeItems(child) && (child.Node? ==> child == items || child < items)
      invariant len + ItemSizes(child, depth, fmt) == 5 + ItemSizes(items, depth, fmt)
      invariant entries + ItemTexts(child, depth, fmt) == ItemTexts(items, depth, fmt)
      decreases child
    {
      var ret := PrintNew(child.value, depth, fmt);
      var text := TextOf(ret, Print(child.value, depth, fmt));
      entries := entries + [text];
      len := len + |text| + 2 + if fmt then 1 else 0;
      child := child.next;
    }
  }

  /** print_array without a buffer: the entries first, then one allocation whose
      precomputed size covers them. */
  method PrintArrayNew(items: Nodes, depth: nat, fmt: bool) returns (out: array<char>)
    requires TreeItems(items)
    ensures fresh(out) && IsString(out[..], 0, Print(Array(items), depth, fmt))
    decreases items, 5
  {
    hide PrintItems, Shows;
    PrintNoNul(Array(items), depth, fmt);
    if items.NoNode? {
      out := NewString(3, "[]");
      return;
    }
    var len, entries := CollectItems(items, depth + 1, fmt);
    ItemsFit(items, depth + 1, fmt);
    var body := ComposeItems(entries, items, depth + 1, fmt);
    out := NewString(len, "[" + body + "]");
  }

  /** The composing loop: entries separated by commas. */
  method ComposeItems(entries: seq<string>, ghost items: Nodes, depth: nat, fmt: bool) returns (ptr: string)
    requires TreeItems(items) && entries == ItemTexts(items, depth, fmt)
    ensures ptr == PrintItems(items, depth, fmt)
  {
    hide Print;
    ptr := "";
    ghost var child := items;
    var i := 0;
    while i < |entries|
      invariant 0 <= i <= |entries| && TreeItems(child) && entries[i..] == ItemTexts(child, depth, fmt)
      invariant ptr + PrintItems(child, depth, fmt) == PrintItems(items, depth, fmt)
      decreases |entries| - i
    {
      assert entries[i..][0] == entries[i] && entries[i..][1..] == entries[i + 1..];
      ItemsText(ptr, child, depth, fmt);
      CutBracket(ptr, child, depth, fmt);
      ptr := ptr + entries[i];
      if i != |entries| - 1 {
        ptr := ptr + (if fmt then ", " else ",");
      }
      assert child.next.Node? <==> i != |entries| - 1;
      child := child.next;
      i := i + 1;
    }
    assert ptr + "" == ptr;
  }

  lemma CutBracket(text: string, c: Nodes, depth: nat, fmt: bool)
    requires TreeItems(c) && c.Node?
    ensures var p := Print(c.value, depth, fmt);
            text + PrintItems(c, depth, fmt)
            == (if c.next.Node? then text + p + Comma(c.next, fmt) else text + p) + PrintItems(c.next, depth, fmt)
  {
    hide Print;
    if c.next.NoNode? { assert Comma(c.next, fmt) == ""; }
  }

  /** The first loop of print_object: the names, the values and the size of the
      whole. */
  method CollectMembers(members: Members, depth: nat, fmt: bool)
    returns (len: nat, names: seq<string>, entries: seq<string>)
    requires TreeMembers(members)
    ensures len == 7 + (if fmt then depth else 0) + MemberSizes(members, depth, fmt)
    ensures names == NameTexts(members) && entries == ValueTexts(members, depth, fmt)
    decreases members, 4
  {
    hide Print, Shows, Quoted;
    len := 7 + if fmt then depth else 0;
    ghost var len0 := len;
    var child := members;
    names, entries := [], [];
    while child.Member?
      invariant TreeMembers(child) && (child.Member? ==> child == members || child < members)
      invariant len + MemberSizes(child, depth, fmt) == len0 + MemberSizes(members, depth, fmt)
      invariant names + NameTexts(child) == NameTexts(members)
      invariant entries + ValueTexts(child, depth, fmt) == ValueTexts(members, depth, fmt)
      decreases child
    {
      var str := PrintStringNew(child.name);
      QuotedNoNul(child.name);
      Whole(str[..], Quoted(child.name));
      var name := TextOf(str, Quoted(child.name));
      var ret := PrintNew(child.value, depth, fmt);
      var text := TextOf(ret, Print(child.value, depth, fmt));
      names := names + [name];
      entries := entries + [text];
      len := len + |text| + |name| + 2 + if fmt then 2 + depth else 0;
      child := child.next;
    }
  }

  /** print_object without a buffer. */
  method PrintObjectNew(members: Members, depth: nat, fmt: bool) returns (out: array<char>)
    requires TreeMembers(members)
    ensures fresh(out) && IsString(out[..], 0, Print(Object(members), depth, fmt))
    decreases members, 5
  {
    hide PrintMembers, Shows, Tabs, Quoted;
    PrintNoNul(Object(members), depth, fmt);
    TabsNoNul(depth);
    TabsNoNul(depth - 1);
    if members.NoMember? {
      var t := if fmt then "{\n" + Tabs(depth - 1) + "}" else "{}";
      assert t == Print(Object(members), depth, fmt);
      out := NewString(if fmt then depth + 4 else 3, t);
      return;
    }
    var len, names, entries := CollectMembers(members, depth + 1, fmt);
    MembersFit(members, depth + 1, fmt);
    ObjectText(members, depth, fmt);
    var body := ComposeMembers(names, entries, members, depth + 1, fmt);
    out := NewString(len, (if fmt then "{\n" else "{") + body + (if fmt then Tabs(depth) + "}" else "}"));
  }

  /** The composing loop of print_object. */
  method ComposeMembers(names: seq<string>, entries: seq<string>, ghost members: Members, depth: nat, fmt: bool)
    returns (ptr: string)
    requires TreeMembers(members) && names == NameTexts(members) && entries == ValueTexts(members, depth, fmt)
    ensures ptr == PrintMembers(members, depth, fmt)
  {
    hide Print, Quoted, Tabs;
    ptr := "";
    ghost var child := members;
    SameCount(members, depth, fmt);
    var i := 0;
    while i < |names|
      invariant 0 <= i <= |names| == |entries| && TreeMembers(child)
      invariant names[i..] == NameTexts(child) && entries[i..] == ValueTexts(child, depth, fmt)
      invariant ptr + PrintMembers(child, depth, fmt) == PrintMembers(members, depth, fmt)
      decreases |names| - i
    {
      assert names[i..][0] == names[i] && names[i..][1..] == names[i + 1..];
      assert entries[i..][0] == entries[i] && entries[i..][1..] == entries[i + 1..];
      MembersText(ptr, child, depth, fmt);
      ghost var t := ptr;
      if fmt {
        ptr := ptr + Tabs(depth);
      }
      ptr := ptr + names[i] + (if fmt then ":\t" else ":");
      PrintBuffer.BeforeText(t, ptr, child.name, depth, fmt);
      ptr := ptr + entries[i];
      assert child.next.Member? <==> i != |names| - 1;
      ptr := ptr + ((if i != |names| - 1 then "," else "") + if fmt then "\n" else "");
      NoTail(t, child, depth, fmt);
      child := child.next;
      i := i + 1;
    }
    assert ptr + "" == ptr;
  }

  lemma {:induction false} SameCount(c: Members, depth: nat, fmt: bool)
    requires TreeMembers(c)
    ensures |NameTexts(c)| == |ValueTexts(c, depth, fmt)|
    decreases c
  {
    if c.Member? { SameCount(c.next, depth, fmt); }
  }

  lemma NoTail(text: string, c: Members, depth: nat, fmt: bool)
    requires TreeMembers(c) && c.Member?
    ensures text + PrintMembers(c, depth, fmt)
            == (text + Before(c.name, depth, fmt) + Print(c.value, depth, fmt) + After(c.next, fmt)) + PrintMembers(c.next, depth, fmt)
  {
    hide Before, Print, After;
  }

  /** cJSON_PrintBuffered: the text of the unbuffered printers if the initial buffer holds
      all that is asked for or that is at most 2^30, and null otherwise. */
  method PrintBuffered(v: Json, prebuffer: int, fmt: bool) returns (text: Option<string>)
    requires Tree(v) && prebuffer <= INT_MAX && Peak(v, 0, fmt) <= INT_MAX
    ensures text == if 0 < prebuffer && Peak(v, 0, fmt) <= Max(prebuffer, TOP) then Some(Print(v, 0, fmt)) else None
  {
    hide Print, Shows, Peak;
    var p := new PrintBuffer(prebuffer);
    var ok := p.PrintValue(v, 0, fmt);
    if !ok { return None; }
    var t := TextOf(p.buffer, Print(v, 0, fmt));
    text := Some(t);
  }

  /** cJSON_Print and cJSON_PrintUnformatted */
  method PrintUnbuffered(v: Json, fmt: bool) returns (text: string)
    requires Tree(v)
    ensures text == Print(v, 0, fmt)
  {
    hide Print;
    var out := PrintNew(v, 0, fmt);
    text := TextOf(out, Print(v, 0, fmt));
  }
}
