/** The layout of printed texts, and minifying. */
module JsonLayout {
  import opened Chains
  import opened Json
  import opened JsonStrings
  import opened JsonTexts

  // ---- the layout of the printers --------------------------------------------------------

  /** A line end and an indentation. */
  function Indent(tabs: int): Gap
    decreases if tabs > 0 then tabs else 0
  {
    if tabs <= 0 then [Space('\n')] else Indent(tabs - 1) + [Space('\t')]
  }

  function OnlyIf(fmt: bool, g: Gap): Gap {
    if fmt then g else []
  }

  function IntLiteral(n: int): Literal {
    Literal(n < 0, Decimal(if n < 0 then -n else n), "", "", "")
  }

  /** How a tree is laid out at some depth: formatted, the elements of an array are
      separated by a blank; every member of an object is on a line of its own, indented by
      one tab more than the closing brace, with a tab behind its colon. An empty object has
      its brace on the next line, indented by one tab less. Unformatted there is no
      whitespace at all. */
  function Styled(v: Json, depth: nat, fmt: bool): Syntax
    requires Tree(v)
  {
    match v
    case Null => VNull
    case False => VFalse
    case True => VTrue
    case Number(n) => VNumber(IntLiteral(n))
    case Str(s) => VString(Spelled(s))
    case Array(items) => VArray([], StyledItems(items, depth + 1, fmt))
    case Object(members) =>
      if members.NoMember? then VObject(OnlyIf(fmt, Indent(depth - 1)), NoPair)
      else VObject(OnlyIf(fmt, Indent(depth + 1)), StyledMembers(members, depth + 1, fmt))
  }

  function StyledItems(c: Nodes, depth: nat, fmt: bool): Elements
    requires TreeItems(c)
  {
    if c.NoNode? then NoElement
    else Element(Styled(c.value, depth, fmt), [], OnlyIf(fmt, [Space(' ')]), StyledItems(c.next, depth, fmt))
  }

  function StyledMembers(c: Members, depth: nat, fmt: bool): Pairs
    requires TreeMembers(c)
  {
    if c.NoMember? then NoPair
    else
      Pair(Spelled(c.name), [], OnlyIf(fmt, [Space('\t')]), Styled(c.value, depth, fmt),
           OnlyIf(fmt && c.next.NoMember?, Indent(depth - 1)), OnlyIf(fmt, Indent(depth)), StyledMembers(c.next, depth, fmt))
  }

  lemma {:induction false} GapJoin(a: Gap, b: Gap)
    ensures GapText(a + b) == GapText(a) + GapText(b)
  {
    if a == [] {
      assert a + b == b;
    } else {
      assert (a + b)[1..] == a[1..] + b;
      GapJoin(a[1..], b);
    }
  }

  lemma GapOne(p: Piece)
    ensures GapText([p]) == PieceText(p) && GapText([]) == ""
  {
    assert [p][1..] == [] && PieceText(p) + "" == PieceText(p);
  }

  lemma {:induction false} IndentText(tabs: int)
    ensures GapOk(Indent(tabs)) && Blank(Indent(tabs)) && GapText(Indent(tabs)) == "\n" + Tabs(tabs)
    decreases if tabs > 0 then tabs else 0
  {
    if tabs <= 0 {
      GapOne(Space('\n'));
    } else {
      IndentText(tabs - 1);
      GapJoin(Indent(tabs - 1), [Space('\t')]);
      GapOne(Space('\t'));
      TabsLast(tabs - 1);
    }
  }

  lemma {:induction false} TabsLast(n: nat)
    ensures Tabs(n) + "\t" == Tabs(n + 1)
  {
    if n > 0 {
      TabsLast(n - 1);
      assert "\t" + Tabs(n - 1) + "\t" == "\t" + (Tabs(n - 1) + "\t");
    }
  }

  lemma IntText1(n: int)
    requires Int32(n)
    ensures WellFormed(IntLiteral(n)) && Text(IntLiteral(n)) == IntText(n) && NumberItem(IntLiteral(n)) == Number(n)
  {
    hide Decimal, Denotes;
    var m := if n < 0 then -n else n;
    ReadDecimal(m, "");
    DecimalValue(m);
    var l := IntLiteral(n);
    assert Fraction(l) + (l.mark + l.exp) == "" && l.whole + "" == l.whole;
  }

  lemma StringText(x: string)
    requires Plain(x)
    ensures CharsOk(Spelled(x)) && Literally(Spelled(x)) == Quoted(x) && Denote(Spelled(x)) == x
  {
    hide CharsText, Denote, EscapeAll;
    SpelledIs(x);
    assert "\"" + (EscapeAll(x) + "\"") == "\"" + EscapeAll(x) + "\"";
  }

  /** What the printers emit is a text of the grammar in that layout, and it means the
      tree. */
  lemma {:induction false} PrintWritten(v: Json, depth: nat, fmt: bool)
    requires Tree(v)
    ensures SyntaxOk(Styled(v, depth, fmt)) && Spaced(Styled(v, depth, fmt))
    ensures Written(Styled(v, depth, fmt)) == Print(v, depth, fmt) && Meaning(Styled(v, depth, fmt)) == v
    decreases v, 1
  {
    hide PrintItems, PrintMembers, StyledItems, StyledMembers, WrittenElements, WrittenPairs, NumberItem, Denote, GapText, Text,
         IntText, Literally, Quoted;
    match v {
      case Number(n) => IntText1(n);
      case Str(s) => StringText(s);
      case Array(items) => ArrayWritten(items, depth, fmt);
      case Object(members) => ObjectWritten(members, depth, fmt);
      case _ =>
    }
  }

  lemma {:induction false} ArrayWritten(items: Nodes, depth: nat, fmt: bool)
    requires TreeItems(items)
    ensures var t := Styled(Array(items), depth, fmt);
            && SyntaxOk(t) && Spaced(t)
            && Written(t) == Print(Array(items), depth, fmt) && Meaning(t) == Array(items)
    decreases items, 2
  {
    hide PrintItems, StyledItems, WrittenElements, GapText, ElementsOk, MeaningElements, TreeItems;
    ItemsWritten(items, depth + 1, fmt);
    GapOne(Space(' '));
    NoItems(depth + 1, fmt);
    var p := PrintItems(items, depth + 1, fmt);
    assert "[" + ("" + (p + "]")) == "[" + p + "]";
    if items.NoNode? { assert "[" + "" + "]" == "[]"; }
  }

  lemma NoItems(depth: nat, fmt: bool)
    ensures PrintItems(NoNode, depth, fmt) == "" && StyledItems(NoNode, depth, fmt) == NoElement
    ensures PrintMembers(NoMember, depth, fmt) == "" && StyledMembers(NoMember, depth, fmt) == NoPair
  {
  }

  lemma {:induction false} ItemsWritten(c: Nodes, depth: nat, fmt: bool)
    requires TreeItems(c)
    ensures var t := StyledItems(c, depth, fmt);
            && ElementsOk(t) && ElementsSpaced(t)
            && WrittenElements(t) == PrintItems(c, depth, fmt) && MeaningElements(t) == c
    decreases c, 0
  {
    hide Print, Styled, Written, Meaning, GapText, SyntaxOk, Tree, WrittenElements, StyledItems, PrintItems, MeaningElements,
         ElementsOk;
    if c.Node? {
      PrintWritten(c.value, depth, fmt);
      ItemsWritten(c.next, depth, fmt);
      ItemOk(c, depth, fmt);
      ItemWritten(c, depth, fmt);
    } else {
      NoItems(depth, fmt);
      NoElements();
    }
  }

  lemma ItemOk(c: Nodes, depth: nat, fmt: bool)
    requires TreeItems(c) && c.Node?
    requires var t := Styled(c.value, depth, fmt); SyntaxOk(t) && Spaced(t) && Meaning(t) == c.value
    requires var t := StyledItems(c.next, depth, fmt);
             ElementsOk(t) && ElementsSpaced(t) && MeaningElements(t) == c.next
    ensures var t := StyledItems(c, depth, fmt);
            ElementsOk(t) && ElementsSpaced(t) && MeaningElements(t) == c
  {
    hide Styled, Meaning, SyntaxOk, Tree, GapOk, Blank, OnlyIf, StyledItems, ElementsOk, MeaningElements;
    GapAt(fmt, ' ');
    StyledItem(c, depth, fmt);
    ElementOk(Styled(c.value, depth, fmt), [], OnlyIf(fmt, [Space(' ')]), StyledItems(c.next, depth, fmt));
  }

  lemma StyledItem(c: Nodes, depth: nat, fmt: bool)
    requires TreeItems(c) && c.Node?
    ensures StyledItems(c, depth, fmt)
            == Element(Styled(c.value, depth, fmt), [], OnlyIf(fmt, [Space(' ')]), StyledItems(c.next, depth, fmt))
  {
    hide Styled, OnlyIf;
  }

  lemma ElementOk(v: Syntax, after: Gap, before: Gap, next: Elements)
    requires SyntaxOk(v) && Spaced(v) && GapOk(after) && Blank(after)
    requires GapOk(before) && Blank(before) && ElementsOk(next) && ElementsSpaced(next)
    ensures var c := Element(v, after, before, next);
            ElementsOk(c) && ElementsSpaced(c) && MeaningElements(c) == Node(Meaning(v), MeaningElements(next))
  {
    hide SyntaxOk, GapOk, Meaning;
  }

  lemma GapAt(fmt: bool, c: char)
    requires IsSpace(c)
    ensures GapOk([]) && Blank([]) && GapOk(OnlyIf(fmt, [Space(c)])) && Blank(OnlyIf(fmt, [Space(c)]))
  {
  }

  lemma IndentAt(fmt: bool, tabs: int)
    ensures GapOk(OnlyIf(fmt, Indent(tabs))) && Blank(OnlyIf(fmt, Indent(tabs)))
    ensures GapText(OnlyIf(fmt, Indent(tabs))) == if fmt then "\n" + Tabs(tabs) else ""
  {
    hide Indent, Tabs, GapText;
    IndentText(tabs);
    GapOne(Space(' '));
  }

  lemma ItemWritten(c: Nodes, depth: nat, fmt: bool)
    requires TreeItems(c) && c.Node?
    requires Written(Styled(c.value, depth, fmt)) == Print(c.value, depth, fmt)
    requires WrittenElements(StyledItems(c.next, depth, fmt)) == PrintItems(c.next, depth, fmt)
    ensures WrittenElements(StyledItems(c, depth, fmt)) == PrintItems(c, depth, fmt)
  {
    hide Print, Styled, Written, GapText;
    GapOne(Space(' '));
    var p, m := Print(c.value, depth, fmt), PrintItems(c.next, depth, fmt);
    if c.next.NoNode? {
      assert p + ("" + "") == p + "" + m;
    } else if fmt {
      assert p + ("" + ("," + (" " + m))) == p + ", " + m;
    } else {
      assert p + ("" + ("," + ("" + m))) == p + "," + m;
    }
  }

  lemma {:induction false} ObjectWritten(members: Members, depth: nat, fmt: bool)
    requires TreeMembers(members)
    ensures var t := Styled(Object(members), depth, fmt);
            && SyntaxOk(t) && Spaced(t)
            && Written(t) == Print(Object(members), depth, fmt) && Meaning(t) == Object(members)
    decreases members, 2
  {
    hide PrintMembers, StyledMembers, WrittenPairs, GapText, Tabs, Indent, GapOk, Blank, OnlyIf, PairsOk, PairsSpaced,
         MeaningPairs, TreeMembers;
    if members.NoMember? {
      EmptyWritten(depth, fmt);
    } else {
      IndentAt(fmt, depth + 1);
      MembersWritten(members, depth + 1, fmt);
      var w, m := WrittenPairs(StyledMembers(members, depth + 1, fmt)), PrintMembers(members, depth + 1, fmt);
      if fmt {
        FormattedObject(Tabs(depth + 1), Tabs(depth), w, m);
      } else {
        PlainObject(w, m);
      }
    }
  }

  lemma EmptyWritten(depth: nat, fmt: bool)
    ensures var t := Styled(Object(NoMember), depth, fmt);
            && SyntaxOk(t) && Spaced(t)
            && Written(t) == Print(Object(NoMember), depth, fmt) && Meaning(t) == Object(NoMember)
  {
    hide GapText, Tabs, Indent, GapOk, Blank, OnlyIf;
    IndentAt(fmt, depth - 1);
    var g := if fmt then "\n" + Tabs(depth - 1) else "";
    assert "{" + (g + ("" + "}")) == "{" + g + "}";
  }

  lemma FormattedObject(a: string, b: string, w: string, m: string)
    requires a + w == m + b
    ensures "{" + ("\n" + a + (w + "}")) == "{" + "\n" + m + b + "}"
  {
    assert "{" + ("\n" + a + (w + "}")) == "{" + "\n" + (a + w) + "}";
    assert "{" + "\n" + (m + b) + "}" == "{" + "\n" + m + b + "}";
  }

  lemma PlainObject(w: string, m: string)
    requires "" + w == m + ""
    ensures "{" + ("" + (w + "}")) == "{" + "" + m + "" + "}"
  {
    assert "" + w == w && m + "" == m;
  }

  /** The indentation of the first member is in the gap of the brace, that of the closing
      brace behind the last. */
  lemma {:induction false} MembersWritten(c: Members, depth: nat, fmt: bool)
    requires TreeMembers(c)
    ensures var t := StyledMembers(c, depth, fmt);
            PairsOk(t) && PairsSpaced(t) && MeaningPairs(t) == c
    ensures c.Member? ==>
              (if fmt then Tabs(depth) else "") + WrittenPairs(StyledMembers(c, depth, fmt))
              == PrintMembers(c, depth, fmt) + if fmt then Tabs(depth - 1) else ""
    decreases c, 0
  {
    hide Print, Styled, Written, Meaning, GapText, Tabs, Indent, PrintMembers, WrittenPairs, Denote, Spelled, SyntaxOk, Tree,
         StyledMembers, MeaningPairs, PairsOk;
    if c.Member? {
      PrintWritten(c.value, depth, fmt);
      MembersWritten(c.next, depth, fmt);
      MemberOk(c, depth, fmt);
      MemberWritten(c, depth, fmt);
    } else {
      NoItems(depth, fmt);
      NoElements();
    }
  }

  lemma MemberOk(c: Members, depth: nat, fmt: bool)
    requires TreeMembers(c) && c.Member?
    requires var t := Styled(c.value, depth, fmt); SyntaxOk(t) && Spaced(t) && Meaning(t) == c.value
    requires var t := StyledMembers(c.next, depth, fmt);
             PairsOk(t) && PairsSpaced(t) && MeaningPairs(t) == c.next
    ensures var t := StyledMembers(c, depth, fmt);
            PairsOk(t) && PairsSpaced(t) && MeaningPairs(t) == c
  {
    hide Styled, Meaning, SyntaxOk, Tree, Indent, Spelled, Denote, GapOk, Blank, OnlyIf, CharsOk, Literally, Quoted,
         StyledMembers, PairsOk, MeaningPairs, Plain;
    StringText(c.name);
    StyledMember(c, depth, fmt);
    PairOk(Spelled(c.name), [], OnlyIf(fmt, [Space('\t')]), Styled(c.value, depth, fmt),
           OnlyIf(fmt && c.next.NoMember?, Indent(depth - 1)), OnlyIf(fmt, Indent(depth)), StyledMembers(c.next, depth, fmt));
  }

  lemma StyledMember(c: Members, depth: nat, fmt: bool)
    requires TreeMembers(c) && c.Member?
    ensures StyledMembers(c, depth, fmt)
            == Pair(Spelled(c.name), [], OnlyIf(fmt, [Space('\t')]), Styled(c.value, depth, fmt),
                    OnlyIf(fmt && c.next.NoMember?, Indent(depth - 1)), OnlyIf(fmt, Indent(depth)),
                    StyledMembers(c.next, depth, fmt))
    ensures GapOk(OnlyIf(fmt, [Space('\t')])) && Blank(OnlyIf(fmt, [Space('\t')]))
    ensures GapOk([]) && Blank([])
    ensures GapOk(OnlyIf(fmt, Indent(depth))) && Blank(OnlyIf(fmt, Indent(depth)))
    ensures var g := OnlyIf(fmt && c.next.NoMember?, Indent(depth - 1)); GapOk(g) && Blank(g)
  {
    hide Styled, OnlyIf, Indent, Spelled, GapOk;
    IndentAt(fmt, depth);
    IndentAt(fmt && c.next.NoMember?, depth - 1);
    GapAt(fmt, '\t');
  }

  lemma PairOk(name: seq<Char>, colon: Gap, gap: Gap, v: Syntax, after: Gap, before: Gap, next: Pairs)
    requires CharsOk(name) && GapOk(colon) && Blank(colon) && GapOk(gap) && Blank(gap)
    requires SyntaxOk(v) && Spaced(v) && GapOk(after) && Blank(after)
    requires GapOk(before) && Blank(before) && PairsOk(next) && PairsSpaced(next)
    ensures var c := Pair(name, colon, gap, v, after, before, next);
            && PairsOk(c) && PairsSpaced(c)
            && MeaningPairs(c) == Member(Denote(name), Meaning(v), MeaningPairs(next))
  {
    hide SyntaxOk, GapOk, Meaning, Denote, CharsOk;
  }

  lemma MemberWritten(c: Members, depth: nat, fmt: bool)
    requires TreeMembers(c) && c.Member?
    requires Written(Styled(c.value, depth, fmt)) == Print(c.value, depth, fmt)
    requires c.next.Member? ==>
               (if fmt then Tabs(depth) else "") + WrittenPairs(StyledMembers(c.next, depth, fmt))
               == PrintMembers(c.next, depth, fmt) + if fmt then Tabs(depth - 1) else ""
    ensures (if fmt then Tabs(depth) else "") + WrittenPairs(StyledMembers(c, depth, fmt))
            == PrintMembers(c, depth, fmt) + if fmt then Tabs(depth - 1) else ""
  {
    hide Print, Styled, Written, GapText, Tabs, Indent, PrintMembers, WrittenPairs, Spelled, Literally, Quoted;
    StringText(c.name);
    var q, p := Quoted(c.name), Print(c.value, depth, fmt);
    var w, m := WrittenPairs(StyledMembers(c.next, depth, fmt)), PrintMembers(c.next, depth, fmt);
    MemberForms(c, depth, fmt, w);
    MemberLine(c, depth, fmt);
    if fmt {
      FormattedMember(q, p, Tabs(depth), Tabs(depth - 1), w, m, c.next.Member?);
    } else {
      PlainMember(q, p, w, m, c.next.Member?);
    }
  }

  lemma MemberForms(c: Members, depth: nat, fmt: bool, w: string)
    requires TreeMembers(c) && c.Member? && w == WrittenPairs(StyledMembers(c.next, depth, fmt))
    requires Written(Styled(c.value, depth, fmt)) == Print(c.value, depth, fmt)
    ensures var p := Print(c.value, depth, fmt);
            WrittenPairs(StyledMembers(c, depth, fmt))
            == Literally(Spelled(c.name))
               + ("" + (":" + ((if fmt then "\t" else "")
               + (p + ((if fmt && c.next.NoMember? then "\n" + Tabs(depth - 1) else "")
               + if c.next.NoMember? then "" else "," + ((if fmt then "\n" + Tabs(depth) else "") + w))))))
  {
    hide Print, Styled, Written, GapText, Tabs, Indent, Spelled, Literally;
    IndentText(depth);
    IndentText(depth - 1);
    GapOne(Space('\t'));
  }

  lemma MemberLine(c: Members, depth: nat, fmt: bool)
    requires TreeMembers(c) && c.Member?
    ensures PrintMembers(c, depth, fmt)
            == (if fmt then Tabs(depth) else "") + Quoted(c.name) + (if fmt then ":\t" else ":")
               + Print(c.value, depth, fmt) + ((if c.next.Member? then "," else "") + (if fmt then "\n" else ""))
               + PrintMembers(c.next, depth, fmt)
    ensures c.next.NoMember? ==> PrintMembers(c.next, depth, fmt) == ""
  {
    hide Print, Tabs, Quoted;
  }

  lemma FormattedMember(q: string, p: string, a: string, b: string, w: string, m: string, more: bool)
    requires if more then a + w == m + b else m == ""
    ensures a + (q + ("" + (":" + ("\t" + (p + ((if more then "" else "\n" + b)
                 + if more then "," + ("\n" + a + w) else ""))))))
            == a + q + ":\t" + p + ((if more then "," else "") + "\n") + m + b
  {
    if more {
      assert "\n" + a + w == "\n" + (m + b);
      assert a + (q + ("" + (":" + ("\t" + (p + ("" + ("," + ("\n" + (m + b)))))))))
          == a + q + ":\t" + p + ("," + "\n") + m + b;
    } else {
      assert a + (q + ("" + (":" + ("\t" + (p + ("\n" + b + "")))))) == a + q + ":\t" + p + ("" + "\n") + "" + b;
    }
  }

  lemma PlainMember(q: string, p: string, w: string, m: string, more: bool)
    requires if more then "" + w == m + "" else m == ""
    ensures "" + (q + ("" + (":" + ("" + (p + ("" + if more then "," + ("" + w) else ""))))))
            == "" + q + ":" + p + ((if more then "," else "") + "") + m + ""
  {
    if more {
      assert "" + w == w && m + "" == m;
    }
  }

  // ---- the promises of the library --------------------------------------------------------

  /** Parsing what was printed, at any depth, gives the tree back and consumes exactly its
      text. */
  lemma RoundTrip(v: Json, depth: nat, fmt: bool, rest: string)
    requires Tree(v) && Delimited(rest)
    ensures ParseValue(Print(v, depth, fmt) + rest) == Ok(v, rest)
  {
    hide ParseValue, Print, Written, Meaning, Styled, SyntaxOk, Spaced, Taken, MayFollow;
    PrintWritten(v, depth, fmt);
    GrammarTaken(Styled(v, depth, fmt));
    Followed(Styled(v, depth, fmt), rest);
    ValueParses(Styled(v, depth, fmt), rest);
  }

  lemma Followed(v: Syntax, rest: string)
    requires SyntaxOk(v) && Delimited(rest)
    ensures MayFollow(v, rest)
  {
  }

  /** For every tree, cJSON_Parse of cJSON_Print or cJSON_PrintUnformatted is that tree, and
      nothing of the text is left over. */
  lemma ParsePrint(v: Json, fmt: bool)
    requires Tree(v)
    ensures Parse(Print(v, 0, fmt), true) == Ok(v, "") && Parse(Print(v, 0, fmt), false) == Ok(v, "")
  {
    hide Parse, Print, Written, Meaning, Styled;
    PrintWritten(v, 0, fmt);
    NoGap(Print(v, 0, fmt));
    assert Print(v, 0, fmt) + "" == Print(v, 0, fmt) && GapText([]) == "";
    TextParses([], Styled(v, 0, fmt), [], true);
    TextParses([], Styled(v, 0, fmt), [], false);
  }

  // ---- minifying ------------------------------------------------------------------------

  /** The same tokens with nothing between them. */
  function Stripped(v: Syntax): Syntax {
    match v
    case VArray(_, items) => VArray([], StrippedElements(items))
    case VObject(_, pairs) => VObject([], StrippedPairs(pairs))
    case _ => v
  }

  function StrippedElements(c: Elements): Elements {
    if c.NoElement? then NoElement else Element(Stripped(c.value), [], [], StrippedElements(c.next))
  }

  function StrippedPairs(c: Pairs): Pairs {
    if c.NoPair? then NoPair else Pair(c.name, [], [], Stripped(c.value), [], [], StrippedPairs(c.next))
  }

  /** What minifying makes of a, whatever follows. */
  ghost predicate Becomes(a: string, b: string) {
    forall rest: string :: Minify(a + rest) == Put(b, Minify(rest))
  }

  lemma Join(a: string, a': string, b: string, b': string)
    requires Becomes(a, a') && Becomes(b, b')
    ensures Becomes(a + b, a' + b')
  {
    hide Minify, Put;
    forall rest: string
      ensures Minify((a + b) + rest) == Put(a' + b', Minify(rest))
    {
      assert (a + b) + rest == a + (b + rest);
      PutPut(a', b', Minify(rest));
    }
  }

  lemma SolidBecomes(t: string)
    requires Solid(t)
    ensures Becomes(t, t)
  {
    hide Minify, Put, Solid;
    forall rest: string
      ensures Minify(t + rest) == Put(t, Minify(rest))
    {
      MinifySolid(t, rest);
    }
  }

  lemma NoGap(a: string)
    ensures GapText([]) + a == a
  {
  }

  /** A gap vanishes with its comments. */
  lemma {:induction false} MinifyGap(g: Gap, rest: string)
    requires GapOk(g)
    ensures Minify(GapText(g) + rest) == Minify(rest)
  {
    hide Minify, PieceOk, PieceText;
    if g == [] {
      NoGap(rest);
    } else {
      MinifyGap(g[1..], rest);
      MinifyPiece(g[0], GapText(g[1..]) + rest);
      assert GapText(g) + rest == PieceText(g[0]) + (GapText(g[1..]) + rest);
    }
  }

  lemma MinifyPiece(p: Piece, rest: string)
    requires PieceOk(p)
    ensures Minify(PieceText(p) + rest) == Minify(rest)
  {
    hide Minify;
    match p {
      case Space(c) => MinifySpace(c, rest);
      case Line(body) =>
        LineEnds(body, rest);
        MinifySpace('\n', rest);
        assert "//" + body + "\n" + rest == "//" + (body + ("\n" + rest));
        LineVanishes(body + ("\n" + rest));
      case Block(body) =>
        CommentEnds(body, rest);
        assert "/*" + body + "*/" + rest == "/*" + (body + ("*/" + rest));
        BlockVanishes(body + ("*/" + rest), rest);
    }
  }

  lemma LineVanishes(t: string)
    ensures Minify("//" + t) == Minify(LineEnd(t))
  {
    assert ("//" + t)[2..] == t;
  }

  lemma BlockVanishes(t: string, rest: string)
    requires t != [] && t[0] != '/' && CommentEnd(t) == Some(rest)
    ensures Minify("/*" + t) == Minify(rest)
  {
    assert ("/*" + t)[1..] == "*" + t && ("*" + t)[1..] == t;
  }

  lemma {:induction false} LineEnds(body: string, rest: string)
    requires '\n' !in body
    ensures LineEnd(body + ("\n" + rest)) == "\n" + rest
  {
    if body == [] {
      assert body + ("\n" + rest) == "\n" + rest;
    } else {
      LineEnds(body[1..], rest);
      assert (body + ("\n" + rest))[1..] == body[1..] + ("\n" + rest);
    }
  }

  lemma {:induction false} CommentEnds(body: string, rest: string)
    requires forall i :: 0 < i < |body| && body[i] == '/' ==> body[i - 1] != '*'
    ensures CommentEnd(body + ("*/" + rest)) == Some(rest)
  {
    var t := body + ("*/" + rest);
    if body == [] {
      assert t == "*/" + rest && t[2..] == rest;
    } else {
      CommentEnds(body[1..], rest);
      assert t[1..] == body[1..] + ("*/" + rest);
      assert |body| == 1 ==> t[1] == '*';
    }
  }

  lemma Vanishes(g: Gap, a: string, b: string)
    requires GapOk(g) && Becomes(a, b)
    ensures Becomes(GapText(g) + a, b)
  {
    hide Minify, GapOk, GapText, Put;
    forall rest: string
      ensures Minify((GapText(g) + a) + rest) == Put(b, Minify(rest))
    {
      assert (GapText(g) + a) + rest == GapText(g) + (a + rest);
      MinifyGap(g, a + rest);
    }
  }

  lemma {:induction false} MinifyChars(cs: seq<Char>, rest: string)
    requires CharsTaken(cs)
    ensures MinifyString(CharsText(cs) + ("\"" + rest)) == Put(CharsText(cs) + "\"", Minify(rest))
  {
    hide MinifyString, Minify, CharText, CharTaken;
    var q := "\"" + rest;
    if cs == [] {
      QuoteEnds(rest);
      assert CharsText(cs) + q == q && CharsText(cs) + "\"" == "\"";
    } else {
      MinifyChars(cs[1..], rest);
      CharCopied(cs[0], CharsText(cs[1..]) + q);
      assert CharsText(cs) + q == CharText(cs[0]) + (CharsText(cs[1..]) + q);
      PutPut(CharText(cs[0]), CharsText(cs[1..]) + "\"", Minify(rest));
      assert CharText(cs[0]) + (CharsText(cs[1..]) + "\"") == CharsText(cs) + "\"";
    }
  }

  lemma QuoteEnds(rest: string)
    ensures MinifyString("\"" + rest) == Put("\"", Minify(rest))
  {
    assert ("\"" + rest)[1..] == rest;
  }

  lemma CharCopied(k: Char, tail: string)
    requires CharTaken(k)
    ensures MinifyString(CharText(k) + tail) == Put(CharText(k), MinifyString(tail))
  {
    match k {
      case Raw(c) => assert ([c] + tail)[1..] == tail;
      case Short(c) => assert (['\\', c] + tail)[2..] == tail && (['\\', c] + tail)[..2] == ['\\', c];
      case Code(h) =>
        var t := "\\u" + h + tail;
        assert t[..2] == "\\u" && t[2..] == h + tail;
        CopyPlain(h, tail);
        PutPut("\\u", h, MinifyString(tail));
    }
  }

  lemma QuoteOpens(t: string)
    ensures Minify("\"" + t) == Put("\"", MinifyString(t))
  {
    assert ("\"" + t)[1..] == t;
  }

  /** A string stays as it is. */
  lemma LiteralBecomes(cs: seq<Char>)
    requires CharsTaken(cs)
    ensures Becomes(Literally(cs), Literally(cs))
  {
    hide MinifyString, Minify, CharsText, CharsTaken, Put;
    forall rest: string
      ensures Minify(Literally(cs) + rest) == Put(Literally(cs), Minify(rest))
    {
      assert Literally(cs) + rest == "\"" + (CharsText(cs) + ("\"" + rest));
      QuoteOpens(CharsText(cs) + ("\"" + rest));
      MinifyChars(cs, rest);
      PutPut("\"", CharsText(cs) + "\"", Minify(rest));
    }
  }

  lemma NumberSolid(l: Literal)
    requires WellFormed(l)
    ensures Solid(Text(l))
  {
    hide Solid;
    DigitsSolid(l.whole);
    DigitsSolid(l.frac);
    DigitsSolid(l.exp);
    MarksSolid();
    SolidJoin(".", l.frac);
    SolidJoin(l.mark, l.exp);
    SolidJoin(Fraction(l), l.mark + l.exp);
    SolidJoin(l.whole, Fraction(l) + (l.mark + l.exp));
    SolidJoin("-", l.whole + (Fraction(l) + (l.mark + l.exp)));
    assert "" + (l.whole + (Fraction(l) + (l.mark + l.exp))) == l.whole + (Fraction(l) + (l.mark + l.exp));
  }

  lemma DigitsSolid(s: string)
    requires Digits(s)
    ensures Solid(s)
  {
  }

  lemma MarksSolid()
    ensures Solid("") && Solid(".") && Solid("-") && Solid("e") && Solid("E")
    ensures Solid("e+") && Solid("E+") && Solid("e-") && Solid("E-")
  {
  }

  lemma SolidJoin(a: string, b: string)
    requires Solid(a) && Solid(b)
    ensures Solid(a + b)
  {
  }

  /** Of every text of the grammar, comments in the gaps included, the tokens are left and
      nothing else. */
  lemma {:induction false} MinifyWritten(v: Syntax)
    requires SyntaxOk(v)
    ensures Becomes(Written(v), Written(Stripped(v)))
    decreases v, 1
  {
    hide Becomes, GapText, WrittenElements, WrittenPairs, Text, Literally;
    match v {
      case VNumber(l) =>
        NumberSolid(l);
        SolidBecomes(Text(l));
      case VString(cs) =>
        OkTaken(cs);
        LiteralBecomes(cs);
      case VArray(gap, items) =>
        MinifyElements(items);
        MinifyBraces("[", gap, WrittenElements(items), WrittenElements(StrippedElements(items)), "]");
      case VObject(gap, pairs) =>
        MinifyPairs(pairs);
        MinifyBraces("{", gap, WrittenPairs(pairs), WrittenPairs(StrippedPairs(pairs)), "}");
      case _ => SolidBecomes(Written(v));
    }
  }

  lemma MinifyBraces(open: string, gap: Gap, a: string, b: string, close: string)
    requires GapOk(gap) && Becomes(a, b) && Solid(open) && Solid(close)
    ensures Becomes(open + (GapText(gap) + (a + close)), open + (GapText([]) + (b + close)))
  {
    hide Becomes, GapOk, GapText, Solid;
    SolidBecomes(open);
    SolidBecomes(close);
    Join(a, b, close, close);
    Vanishes(gap, a + close, b + close);
    NoGap(b + close);
    Join(open, open, GapText(gap) + (a + close), b + close);
  }

  /** What stands behind a value: the gap, and the comma with the gap behind it if more
      follows. */
  lemma MinifyNext(after: Gap, before: Gap, more: bool, a: string, b: string)
    requires GapOk(after) && GapOk(before) && Becomes(a, b)
    ensures Becomes(GapText(after) + if more then "," + (GapText(before) + a) else "",
                    GapText([]) + if more then "," + (GapText([]) + b) else "")
  {
    hide Becomes, GapOk, GapText;
    if more {
      SolidBecomes(",");
      Vanishes(before, a, b);
      NoGap(b);
      Join(",", ",", GapText(before) + a, b);
      Vanishes(after, "," + (GapText(before) + a), "," + b);
      NoGap("," + b);
    } else {
      SolidBecomes("");
      Vanishes(after, "", "");
      NoGap("");
    }
  }

  lemma {:induction false} MinifyElements(c: Elements)
    requires ElementsOk(c)
    ensures Becomes(WrittenElements(c), WrittenElements(StrippedElements(c)))
    decreases c, 0
  {
    hide Becomes, GapText, GapOk, Written, SyntaxOk;
    if c.NoElement? {
      SolidBecomes("");
    } else {
      var m, m' := WrittenElements(c.next), WrittenElements(StrippedElements(c.next));
      MinifyWritten(c.value);
      MinifyElements(c.next);
      MinifyNext(c.after, c.before, c.next.Element?, m, m');
      Join(Written(c.value), Written(Stripped(c.value)),
           GapText(c.after) + if c.next.NoElement? then "" else "," + (GapText(c.before) + m),
           GapText([]) + if c.next.NoElement? then "" else "," + (GapText([]) + m'));
    }
  }

  lemma {:induction false} MinifyPairs(c: Pairs)
    requires PairsOk(c)
    ensures Becomes(WrittenPairs(c), WrittenPairs(StrippedPairs(c)))
    decreases c, 0
  {
    hide Becomes, GapText, GapOk, Written, SyntaxOk, Literally, CharsOk;
    if c.NoPair? {
      SolidBecomes("");
    } else {
      var m, m' := WrittenPairs(c.next), WrittenPairs(StrippedPairs(c.next));
      var p := GapText(c.after) + if c.next.NoPair? then "" else "," + (GapText(c.before) + m);
      var p' := GapText([]) + if c.next.NoPair? then "" else "," + (GapText([]) + m');
      MinifyWritten(c.value);
      MinifyPairs(c.next);
      MinifyNext(c.after, c.before, c.next.Pair?, m, m');
      Join(Written(c.value), Written(Stripped(c.value)), p, p');
      MinifyName(c, Written(c.value) + p, Written(Stripped(c.value)) + p');
    }
  }

  lemma MinifyName(c: Pairs, a: string, b: string)
    requires PairsOk(c) && c.Pair? && Becomes(a, b)
    ensures Becomes(Literally(c.name) + (GapText(c.colon) + (":" + (GapText(c.gap) + a))),
                    Literally(c.name) + (GapText([]) + (":" + (GapText([]) + b))))
  {
    hide Becomes, GapText, GapOk, SyntaxOk, Literally, CharsOk;
    OkTaken(c.name);
    LiteralBecomes(c.name);
    SolidBecomes(":");
    Vanishes(c.gap, a, b);
    NoGap(b);
    Join(":", ":", GapText(c.gap) + a, b);
    Vanishes(c.colon, ":" + (GapText(c.gap) + a), ":" + b);
    NoGap(":" + b);
    Join(Literally(c.name), Literally(c.name), GapText(c.colon) + (":" + (GapText(c.gap) + a)), ":" + b);
  }

  /** Stripping leaves a text of RFC 8259 with the same meaning. */
  lemma {:induction false} StrippedMeans(v: Syntax)
    requires SyntaxOk(v)
    ensures SyntaxOk(Stripped(v)) && Spaced(Stripped(v)) && Meaning(Stripped(v)) == Meaning(v)
    decreases v, 1
  {
    hide NumberItem, Denote, CharsOk, WellFormed;
    match v {
      case VArray(_, items) => StrippedElementsMean(items);
      case VObject(_, pairs) => StrippedPairsMean(pairs);
      case _ =>
    }
  }

  lemma {:induction false} StrippedElementsMean(c: Elements)
    requires ElementsOk(c)
    ensures var t := StrippedElements(c); ElementsOk(t) && ElementsSpaced(t) && MeaningElements(t) == MeaningElements(c)
    decreases c, 0
  {
    hide Meaning, SyntaxOk, Spaced;
    if c.Element? {
      StrippedMeans(c.value);
      StrippedElementsMean(c.next);
    }
  }

  lemma {:induction false} StrippedPairsMean(c: Pairs)
    requires PairsOk(c)
    ensures var t := StrippedPairs(c); PairsOk(t) && PairsSpaced(t) && MeaningPairs(t) == MeaningPairs(c)
    decreases c, 0
  {
    hide Meaning, SyntaxOk, Spaced, CharsOk, Denote;
    if c.Pair? {
      StrippedMeans(c.value);
      StrippedPairsMean(c.next);
    }
  }

  /** A comment to the end of the line may also end the text. */
  predicate OpenLine(s: string) {
    s == "" || (|s| >= 2 && s[0] == '/' && s[1] == '/' && '\n' !in s)
  }

  lemma {:induction false} LineRuns(body: string)
    requires '\n' !in body
    ensures LineEnd(body) == ""
  {
    if body != [] { LineRuns(body[1..]); }
  }

  /** cJSON_Minify of a whole text leaves its tokens, and cJSON_Parse reads what is left as
      what the text meant. */
  lemma TextMinifies(before: Gap, v: Syntax, after: Gap, end: string)
    requires GapOk(before) && SyntaxOk(v) && GapOk(after) && OpenLine(end)
    ensures Minify(GapText(before) + (Written(v) + (GapText(after) + end))) == Some(Written(Stripped(v)))
    ensures Parse(Written(Stripped(v)), true) == Ok(Meaning(v), "")
  {
    hide Minify, GapText, Written, GapOk, SyntaxOk, Meaning, Parse;
    var t := Written(Stripped(v));
    MinifyGap(before, Written(v) + (GapText(after) + end));
    MinifyWritten(v);
    assert Minify(Written(v) + (GapText(after) + end)) == Put(t, Minify(GapText(after) + end));
    MinifyGap(after, end);
    OpenLineVanishes(end);
    assert t + "" == t;
    StrippedMeans(v);
    StrippedParses(v);
  }

  lemma OpenLineVanishes(end: string)
    requires OpenLine(end)
    ensures Minify(end) == Some("")
  {
    if end != "" { LineRuns(end[2..]); }
  }

  lemma StrippedParses(v: Syntax)
    requires SyntaxOk(v) && SyntaxOk(Stripped(v)) && Spaced(Stripped(v)) && Meaning(Stripped(v)) == Meaning(v)
    ensures Parse(Written(Stripped(v)), true) == Ok(Meaning(v), "")
  {
    hide Parse, Written, SyntaxOk, Meaning, Stripped, Spaced;
    var t := Written(Stripped(v));
    NoGap(t);
    assert t + "" == t && GapText([]) == "";
    TextParses([], Stripped(v), [], true);
  }

  /** A block comment whose text starts with a slash is one of three characters for
      cJSON_Minify, and the rest of it stays. */
  lemma OddComment(body: string, rest: string)
    requires body != [] && body[0] == '/'
    ensures Minify("/*" + body + "*/" + rest) == Minify(body[1..] + "*/" + rest)
  {
    var t := "/*" + body + "*/" + rest;
    assert t[1..][2..] == body[1..] + "*/" + rest;
  }

  lemma OddExample()
    ensures Minify("/*/*/") == Some("*/")
  {
    hide Minify;
    OddComment("/", "");
    assert "/*" + "/" + "*/" + "" == "/*/*/" && "/"[1..] + "*/" + "" == "*/";
    MinifySolid("*", "/");
    assert "*" + "/" == "*/";
    SlashAlone();
  }

  lemma SlashAlone()
    ensures Minify("/") == Some("/")
  {
    assert Minify("") == Some("") && "/"[1..] == "" && "/" + "" == "/";
  }

  /** Both layouts have the same tokens. */
  lemma {:induction false} StrippedStyled(v: Json, depth: nat, depth': nat, fmt: bool)
    requires Tree(v)
    ensures Stripped(Styled(v, depth, fmt)) == Styled(v, depth', false)
    decreases v, 1
  {
    match v {
      case Array(items) => StrippedItems(items, depth + 1, depth' + 1, fmt);
      case Object(members) => StrippedMembers(members, depth + 1, depth' + 1, fmt);
      case _ =>
    }
  }

  lemma {:induction false} StrippedItems(c: Nodes, depth: nat, depth': nat, fmt: bool)
    requires TreeItems(c)
    ensures StrippedElements(StyledItems(c, depth, fmt)) == StyledItems(c, depth', false)
    decreases c, 0
  {
    hide Styled;
    if c.Node? {
      StrippedStyled(c.value, depth, depth', fmt);
      StrippedItems(c.next, depth, depth', fmt);
    }
  }

  lemma {:induction false} StrippedMembers(c: Members, depth: nat, depth': nat, fmt: bool)
    requires TreeMembers(c)
    ensures StrippedPairs(StyledMembers(c, depth, fmt)) == StyledMembers(c, depth', false)
    decreases c, 0
  {
    hide Styled, Indent, Spelled;
    if c.Member? {
      StrippedStyled(c.value, depth, depth', fmt);
      StrippedMembers(c.next, depth, depth', fmt);
    }
  }

  /** Minifying the formatted text of a value leaves the unformatted text. */
  lemma MinifyValue(v: Json, depth: nat, depth': nat, rest: string)
    requires Tree(v)
    ensures Minify(Print(v, depth, true) + rest) == Put(Print(v, depth', false), Minify(rest))
  {
    hide Minify, Print, Written, Styled, Stripped, Meaning, SyntaxOk, Spaced;
    PrintWritten(v, depth, true);
    PrintWritten(v, depth', false);
    StrippedStyled(v, depth, depth', true);
    MinifyWritten(Styled(v, depth, true));
  }

  /** Minifying what cJSON_Print gives is what cJSON_PrintUnformatted gives. */
  lemma MinifyPrint(v: Json)
    requires Tree(v)
    ensures Minify(Print(v, 0, true)) == Some(Print(v, 0, false))
  {
    hide Print;
    MinifyValue(v, 0, 0, "");
    assert Print(v, 0, true) + "" == Print(v, 0, true) && Print(v, 0, false) + "" == Print(v, 0, false);
  }
}
