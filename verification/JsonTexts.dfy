/** The texts of RFC 8259 as trees of tokens. */
module JsonTexts {
  // What the parser makes of every such text, and which other texts it takes.

  import opened Chains
  import opened Json
  import opened JsonStrings

  // ---- gaps ---------------------------------------------------------------------------

  /** A piece of a gap: a character of whitespace, or a comment to the end of the line or
      between its marks. */
  datatype Piece = Space(c: char) | Line(body: string) | Block(body: string)

  type Gap = seq<Piece>

  predicate PieceOk(p: Piece) {
    match p
    case Space(c) => IsSpace(c)
    case Line(body) => '\n' !in body
    case Block(body) => forall i :: 0 <= i < |body| && body[i] == '/' ==> i > 0 && body[i - 1] != '*'
  }

  predicate GapOk(g: Gap) {
    forall i :: 0 <= i < |g| ==> PieceOk(g[i])
  }

  /** Whitespace only, as the grammar has it. */
  predicate Blank(g: Gap) {
    forall i :: 0 <= i < |g| ==> g[i].Space?
  }

  function PieceText(p: Piece): string {
    match p
    case Space(c) => [c]
    case Line(body) => "//" + body + "\n"
    case Block(body) => "/*" + body + "*/"
  }

  function GapText(g: Gap): string {
    if g == [] then "" else PieceText(g[0]) + GapText(g[1..])
  }

  // ---- texts --------------------------------------------------------------------------

  /** A value of the grammar: the gap of a bracket or brace is the one behind it. */
  datatype Syntax =
    | VNull
    | VFalse
    | VTrue
    | VNumber(l: Literal)
    | VString(cs: seq<Char>)
    | VArray(gap: Gap, items: Elements)
    | VObject(gap: Gap, pairs: Pairs)

  /** An element with the gap behind it and, if another follows, the one behind the
      comma. */
  datatype Elements = NoElement | Element(value: Syntax, after: Gap, before: Gap, next: Elements)

  /** The same for a name, with the gaps around its colon, and a value. */
  datatype Pairs = NoPair | Pair(name: seq<Char>, colon: Gap, gap: Gap, value: Syntax, after: Gap, before: Gap, next: Pairs)

  predicate SyntaxOk(v: Syntax) {
    match v
    case VNumber(l) => WellFormed(l)
    case VString(cs) => CharsOk(cs)
    case VArray(gap, items) => GapOk(gap) && ElementsOk(items)
    case VObject(gap, pairs) => GapOk(gap) && PairsOk(pairs)
    case _ => true
  }

  predicate ElementsOk(c: Elements) {
    c.Element? ==> SyntaxOk(c.value) && GapOk(c.after) && GapOk(c.before) && ElementsOk(c.next)
  }

  predicate PairsOk(c: Pairs) {
    c.Pair? ==>
      && CharsOk(c.name) && GapOk(c.colon) && GapOk(c.gap)
      && SyntaxOk(c.value) && GapOk(c.after) && GapOk(c.before) && PairsOk(c.next)
  }

  /** No comments in the gaps: a text of RFC 8259. */
  predicate Spaced(v: Syntax) {
    match v
    case VArray(gap, items) => Blank(gap) && ElementsSpaced(items)
    case VObject(gap, pairs) => Blank(gap) && PairsSpaced(pairs)
    case _ => true
  }

  predicate ElementsSpaced(c: Elements) {
    c.Element? ==> Spaced(c.value) && Blank(c.after) && Blank(c.before) && ElementsSpaced(c.next)
  }

  predicate PairsSpaced(c: Pairs) {
    c.Pair? ==>
      && Blank(c.colon) && Blank(c.gap) && Spaced(c.value) && Blank(c.after) && Blank(c.before) && PairsSpaced(c.next)
  }

  function Written(v: Syntax): string {
    match v
    case VNull => "null"
    case VFalse => "false"
    case VTrue => "true"
    case VNumber(l) => Text(l)
    case VString(cs) => Literally(cs)
    case VArray(gap, items) => "[" + (GapText(gap) + (WrittenElements(items) + "]"))
    case VObject(gap, pairs) => "{" + (GapText(gap) + (WrittenPairs(pairs) + "}"))
  }

  function Literally(cs: seq<Char>): string {
    "\"" + (CharsText(cs) + "\"")
  }

  function WrittenElements(c: Elements): string {
    if c.NoElement? then ""
    else
      Written(c.value)
      + (GapText(c.after) + if c.next.NoElement? then "" else "," + (GapText(c.before) + WrittenElements(c.next)))
  }

  function WrittenPairs(c: Pairs): string {
    if c.NoPair? then ""
    else
      Literally(c.name)
      + (GapText(c.colon)
         + (":"
            + (GapText(c.gap)
               + (Written(c.value)
                  + (GapText(c.after) + if c.next.NoPair? then "" else "," + (GapText(c.before) + WrittenPairs(c.next)))))))
  }

  // ---- what they mean -------------------------------------------------------------------

  ghost function Meaning(v: Syntax): Json {
    match v
    case VNull => Null
    case VFalse => False
    case VTrue => True
    case VNumber(l) => NumberItem(l)
    case VString(cs) => Str(Denote(cs))
    case VArray(_, items) => Array(MeaningElements(items))
    case VObject(_, pairs) => Object(MeaningPairs(pairs))
  }

  ghost function MeaningElements(c: Elements): Nodes {
    if c.NoElement? then NoNode else Node(Meaning(c.value), MeaningElements(c.next))
  }

  ghost function MeaningPairs(c: Pairs): Members {
    if c.NoPair? then NoMember else Member(Denote(c.name), Meaning(c.value), MeaningPairs(c.next))
  }

  // ---- what the parser takes --------------------------------------------------------------

  /** Everything up to the blank is whitespace for it. */
  predicate Skipped(g: Gap) {
    forall i :: 0 <= i < |g| ==> g[i].Space? && g[i].c <= ' '
  }

  predicate Taken(v: Syntax) {
    match v
    case VNumber(l) => NumberTaken(l)
    case VString(cs) => CharsTaken(cs)
    case VArray(gap, items) => Skipped(gap) && ElementsTaken(items)
    case VObject(gap, pairs) => Skipped(gap) && PairsTaken(pairs)
    case _ => true
  }

  predicate ElementsTaken(c: Elements) {
    c.Element? ==> Taken(c.value) && Skipped(c.after) && Skipped(c.before) && ElementsTaken(c.next)
  }

  predicate PairsTaken(c: Pairs) {
    c.Pair? ==>
      && CharsTaken(c.name) && Skipped(c.colon) && Skipped(c.gap)
      && Taken(c.value) && Skipped(c.after) && Skipped(c.before) && PairsTaken(c.next)
  }

  /** It takes every text of the grammar. */
  lemma {:induction false} GrammarTaken(v: Syntax)
    requires SyntaxOk(v) && Spaced(v)
    ensures Taken(v)
    decreases v, 1
  {
    hide ElementsOk, ElementsSpaced, PairsOk, PairsSpaced, ElementsTaken, PairsTaken, CharsOk, CharsTaken, GapOk, Blank,
         Skipped;
    match v {
      case VString(cs) => OkTaken(cs);
      case VArray(gap, items) =>
        BlankSkipped(gap);
        ElementsGrammarTaken(items);
      case VObject(gap, pairs) =>
        BlankSkipped(gap);
        PairsGrammarTaken(pairs);
      case _ =>
    }
  }

  lemma BlankSkipped(g: Gap)
    requires GapOk(g) && Blank(g)
    ensures Skipped(g)
  {
    forall i | 0 <= i < |g|
      ensures g[i].Space? && g[i].c <= ' '
    {
      assert PieceOk(g[i]);
    }
  }

  lemma {:induction false} ElementsGrammarTaken(c: Elements)
    requires ElementsOk(c) && ElementsSpaced(c)
    ensures ElementsTaken(c)
    decreases c, 0
  {
    hide SyntaxOk, Spaced, Taken, GapOk, Blank, Skipped;
    if c.Element? {
      GrammarTaken(c.value);
      BlankSkipped(c.after);
      BlankSkipped(c.before);
      ElementsGrammarTaken(c.next);
    }
  }

  lemma {:induction false} PairsGrammarTaken(c: Pairs)
    requires PairsOk(c) && PairsSpaced(c)
    ensures PairsTaken(c)
    decreases c, 0
  {
    hide SyntaxOk, Spaced, Taken, GapOk, Blank, Skipped, CharsOk, CharsTaken;
    if c.Pair? {
      OkTaken(c.name);
      BlankSkipped(c.colon);
      BlankSkipped(c.gap);
      GrammarTaken(c.value);
      BlankSkipped(c.after);
      BlankSkipped(c.before);
      PairsGrammarTaken(c.next);
    }
  }

  // ---- parsing --------------------------------------------------------------------------

  lemma {:induction false} SkipGap(g: Gap, rest: string)
    requires Skipped(g)
    ensures Skip(GapText(g) + rest) == Skip(rest)
  {
    if g == [] {
      assert GapText(g) + rest == rest;
    } else {
      SkipGap(g[1..], rest);
      SkipOne(g[0].c, GapText(g[1..]) + rest);
      assert GapText(g) + rest == [g[0].c] + (GapText(g[1..]) + rest);
    }
  }

  /** What goes on with no number. */
  ghost predicate Parted(rest: string) {
    Delimited(rest) && (rest != [] ==> rest[0] != '+' && rest[0] != '-')
  }

  /** What may follow a value without becoming part of it. */
  ghost predicate MayFollow(v: Syntax, rest: string) {
    v.VNumber? ==> Ends(v.l, rest)
  }

  lemma GapParts(g: Gap, rest: string)
    requires Skipped(g) && Parted(rest)
    ensures Parted(GapText(g) + rest)
  {
    if g == [] {
      assert GapText(g) + rest == rest;
    } else {
      assert GapText(g) + rest == [g[0].c] + (GapText(g[1..]) + rest);
    }
  }

  /** No value starts with whitespace or with what would end or continue a container. */
  lemma ValueStart(v: Syntax, rest: string)
    requires Taken(v)
    ensures var t := Written(v) + rest;
            Skip(t) == t && !Starts(t, ']') && !Starts(t, '}') && !Starts(t, ',')
  {
    hide WrittenElements, WrittenPairs, GapText, CharsText;
    if v.VNumber? { NumberParts(v.l, ""); }
    assert Written(v) != [] && (Written(v) + rest)[0] == Written(v)[0];
    if v.VNumber? { assert Text(v.l) + "" == Text(v.l); }
  }

  lemma NumberRead(l: Literal, rest: string)
    requires NumberTaken(l) && Ends(l, rest)
    ensures ParseValue(Text(l) + rest) == Ok(NumberItem(l), rest)
  {
    hide ParseItems, ParseMembers, ParseNumber, Unescape, Skip, NumberItem;
    NumberDenotes(l, rest);
  }

  lemma StringRead(cs: seq<Char>, rest: string)
    requires CharsTaken(cs)
    ensures ParseValue(Literally(cs) + rest) == Ok(Str(Denote(cs)), rest)
    ensures var t := Literally(cs) + rest; t[0] == '\"' && Unescape(t[1..]) == Ok(Denote(cs), rest)
  {
    hide ParseItems, ParseMembers, ParseNumber, Unescape, Skip, CharsText, Denote;
    LiteralMeans(cs, rest);
    assert Literally(cs) + rest == "\"" + (CharsText(cs) + ("\"" + rest));
  }

  /** Every value the parser takes is read to its end as what it means. */
  lemma {:induction false} ValueParses(v: Syntax, rest: string)
    requires Taken(v) && MayFollow(v, rest)
    ensures ParseValue(Written(v) + rest) == Ok(Meaning(v), rest)
    decreases v, 1
  {
    hide ParseValue, WrittenElements, WrittenPairs, NumberItem, Denote, CharsText, GapText, Text;
    match v {
      case VNull => WordStep(rest);
      case VFalse => WordStep(rest);
      case VTrue => WordStep(rest);
      case VNumber(l) => NumberRead(l, rest);
      case VString(cs) => StringRead(cs, rest);
      case VArray(gap, items) => ArrayParses(gap, items, rest);
      case VObject(gap, pairs) => ObjectParses(gap, pairs, rest);
    }
  }

  lemma {:induction false} ArrayParses(gap: Gap, items: Elements, rest: string)
    requires Skipped(gap) && ElementsTaken(items)
    ensures ParseValue(Written(VArray(gap, items)) + rest) == Ok(Array(MeaningElements(items)), rest)
    decreases items, 2
  {
    hide ParseValue, ParseItems, Skip, WrittenElements, GapText, MeaningElements, ElementsTaken, Skipped;
    var body := WrittenElements(items) + ("]" + rest);
    assert Written(VArray(gap, items)) + rest == "[" + (GapText(gap) + body);
    SkipGap(gap, body);
    ArrayStep(GapText(gap) + body);
    if items.NoElement? {
      NoElements();
      assert body == "]" + rest && body[1..] == rest;
      SkipOne(']', rest);
    } else {
      ElementsStart(items, "]" + rest);
      ElementsParse(items, rest);
    }
  }

  lemma NoElements()
    ensures WrittenElements(NoElement) == "" && WrittenPairs(NoPair) == ""
    ensures ElementsOk(NoElement) && PairsOk(NoPair) && ElementsSpaced(NoElement) && PairsSpaced(NoPair)
    ensures ElementsTaken(NoElement) && PairsTaken(NoPair)
    ensures MeaningElements(NoElement) == NoNode && MeaningPairs(NoPair) == NoMember
  {
  }

  /** What follows the value of an element. */
  function AfterElement(c: Elements, rest: string): string
    requires c.Element?
  {
    if c.next.NoElement? then rest else "," + (GapText(c.before) + (WrittenElements(c.next) + rest))
  }

  lemma ElementText(c: Elements, rest: string)
    requires c.Element?
    ensures WrittenElements(c) + rest == Written(c.value) + (GapText(c.after) + AfterElement(c, rest))
  {
    hide Written, GapText, WrittenElements, AfterElement;
    var p := if c.next.NoElement? then "" else "," + (GapText(c.before) + WrittenElements(c.next));
    WrittenElement(c);
    NextElement(c, p, rest);
    assert Written(c.value) + (GapText(c.after) + p) + rest == Written(c.value) + (GapText(c.after) + (p + rest));
  }

  lemma WrittenElement(c: Elements)
    requires c.Element?
    ensures var p := if c.next.NoElement? then "" else "," + (GapText(c.before) + WrittenElements(c.next));
            WrittenElements(c) == Written(c.value) + (GapText(c.after) + p)
  {
    hide Written, GapText;
  }

  lemma NextElement(c: Elements, p: string, rest: string)
    requires c.Element? && p == if c.next.NoElement? then "" else "," + (GapText(c.before) + WrittenElements(c.next))
    ensures p + rest == AfterElement(c, rest)
  {
    hide GapText, WrittenElements;
    if c.next.NoElement? {
      assert "" + rest == rest;
    } else {
      assert "," + (GapText(c.before) + WrittenElements(c.next)) + rest
          == "," + (GapText(c.before) + (WrittenElements(c.next) + rest));
    }
  }

  lemma ElementsStart(c: Elements, rest: string)
    requires ElementsTaken(c) && c.Element?
    ensures var t := WrittenElements(c) + rest; Skip(t) == t && !Starts(t, ']')
  {
    hide Written, Skip, GapText, WrittenElements;
    ElementText(c, rest);
    ValueStart(c.value, GapText(c.after) + AfterElement(c, rest));
  }

  lemma {:induction false} ElementsParse(c: Elements, rest: string)
    requires ElementsTaken(c) && c.Element?
    ensures ParseItems(WrittenElements(c) + ("]" + rest)) == Ok(MeaningElements(c), rest)
    decreases c, 0
  {
    hide ParseValue, ParseItems, Skip, Written, GapText, WrittenElements, Meaning;
    var end := "]" + rest;
    var tail := AfterElement(c, end);
    ElementText(c, end);
    SkipGap(c.after, tail);
    GapParts(c.after, tail);
    ValueParses(c.value, GapText(c.after) + tail);
    ItemsStep(WrittenElements(c) + end, Meaning(c.value), GapText(c.after) + tail);
    if c.next.NoElement? {
      assert end[1..] == rest;
      SkipOne(']', rest);
    } else {
      var more := WrittenElements(c.next) + end;
      assert tail[1..] == GapText(c.before) + more;
      SkipOne(',', GapText(c.before) + more);
      SkipGap(c.before, more);
      ElementsStart(c.next, end);
      ElementsParse(c.next, rest);
    }
  }

  lemma {:induction false} ObjectParses(gap: Gap, pairs: Pairs, rest: string)
    requires Skipped(gap) && PairsTaken(pairs)
    ensures ParseValue(Written(VObject(gap, pairs)) + rest) == Ok(Object(MeaningPairs(pairs)), rest)
    decreases pairs, 2
  {
    hide ParseValue, ParseMembers, Skip, WrittenPairs, GapText, MeaningPairs, PairsTaken, Skipped;
    var body := WrittenPairs(pairs) + ("}" + rest);
    assert Written(VObject(gap, pairs)) + rest == "{" + (GapText(gap) + body);
    SkipGap(gap, body);
    ObjectStep(GapText(gap) + body);
    if pairs.NoPair? {
      NoElements();
      assert body == "}" + rest && body[1..] == rest;
      SkipOne('}', rest);
    } else {
      PairsStart(pairs, "}" + rest);
      PairsParse(pairs, rest);
    }
  }

  /** What follows the name, and what follows the value, of a pair. */
  function AfterName(c: Pairs, rest: string): string
    requires c.Pair?
  {
    GapText(c.colon) + (":" + (GapText(c.gap) + (Written(c.value) + (GapText(c.after) + AfterPair(c, rest)))))
  }

  function AfterPair(c: Pairs, rest: string): string
    requires c.Pair?
  {
    if c.next.NoPair? then rest else "," + (GapText(c.before) + (WrittenPairs(c.next) + rest))
  }

  lemma PairText(c: Pairs, rest: string)
    requires c.Pair?
    ensures WrittenPairs(c) + rest == Literally(c.name) + AfterName(c, rest)
  {
    hide Written, GapText, Literally, WrittenPairs, AfterPair;
    var p := if c.next.NoPair? then "" else "," + (GapText(c.before) + WrittenPairs(c.next));
    WrittenPair(c);
    NextPair(c, p, rest);
    Regroup(Literally(c.name), GapText(c.colon), GapText(c.gap), Written(c.value), GapText(c.after), p, rest);
  }

  lemma NextPair(c: Pairs, p: string, rest: string)
    requires c.Pair? && p == if c.next.NoPair? then "" else "," + (GapText(c.before) + WrittenPairs(c.next))
    ensures p + rest == AfterPair(c, rest)
  {
    hide GapText, WrittenPairs;
    if c.next.NoPair? {
      assert "" + rest == rest;
    } else {
      assert "," + (GapText(c.before) + WrittenPairs(c.next)) + rest
          == "," + (GapText(c.before) + (WrittenPairs(c.next) + rest));
    }
  }

  lemma WrittenPair(c: Pairs)
    requires c.Pair?
    ensures var p := if c.next.NoPair? then "" else "," + (GapText(c.before) + WrittenPairs(c.next));
            WrittenPairs(c)
            == Literally(c.name) + (GapText(c.colon) + (":" + (GapText(c.gap) + (Written(c.value) + (GapText(c.after) + p)))))
  {
    hide Written, GapText, Literally;
  }

  lemma Regroup(n: string, k: string, g: string, v: string, a: string, p: string, rest: string)
    ensures n + (k + (":" + (g + (v + (a + p))))) + rest == n + (k + (":" + (g + (v + (a + (p + rest))))))
  {
  }

  lemma PairsStart(c: Pairs, rest: string)
    requires PairsTaken(c) && c.Pair?
    ensures var t := WrittenPairs(c) + rest; Skip(t) == t && Starts(t, '\"')
  {
    hide Written, GapText, WrittenPairs, CharsText, AfterName;
    PairText(c, rest);
  }

  lemma {:induction false} PairsParse(c: Pairs, rest: string)
    requires PairsTaken(c) && c.Pair?
    ensures ParseMembers(WrittenPairs(c) + ("}" + rest)) == Ok(MeaningPairs(c), rest)
    decreases c, 0
  {
    hide ParseValue, ParseMembers, Skip, Written, GapText, WrittenPairs, Meaning, Denote, Unescape, Literally, AfterName,
         CharsTaken;
    var end := "}" + rest;
    var tail := AfterPair(c, end);
    var text, behind := WrittenPairs(c) + end, GapText(c.after) + tail;
    PairText(c, end);
    StringRead(c.name, AfterName(c, end));
    ColonRead(c, end);
    SkipGap(c.after, tail);
    GapParts(c.after, tail);
    ValueParses(c.value, behind);
    MembersStep(text, Denote(c.name), AfterName(c, end), Meaning(c.value), behind);
    if c.next.NoPair? {
      assert end[1..] == rest;
      SkipOne('}', rest);
    } else {
      var more := WrittenPairs(c.next) + end;
      assert tail[1..] == GapText(c.before) + more;
      SkipOne(',', GapText(c.before) + more);
      SkipGap(c.before, more);
      PairsStart(c.next, end);
      PairsParse(c.next, rest);
    }
  }

  /** The whitespace around the colon. */
  lemma ColonRead(c: Pairs, rest: string)
    requires PairsTaken(c) && c.Pair?
    ensures var k := Skip(AfterName(c, rest));
            Starts(k, ':') && Skip(k[1..]) == Written(c.value) + (GapText(c.after) + AfterPair(c, rest))
  {
    hide Written, GapText, Skip, AfterPair;
    var value := Written(c.value) + (GapText(c.after) + AfterPair(c, rest));
    var colon := ":" + (GapText(c.gap) + value);
    SkipGap(c.colon, colon);
    SkipOne(':', GapText(c.gap) + value);
    assert colon[1..] == GapText(c.gap) + value;
    SkipGap(c.gap, value);
    ValueStart(c.value, GapText(c.after) + AfterPair(c, rest));
  }

  /** Of such a text, nothing is left over. */
  lemma TakenParses(before: Gap, v: Syntax, after: Gap, whole: bool)
    requires Skipped(before) && Taken(v) && Skipped(after)
    ensures Parse(GapText(before) + (Written(v) + GapText(after)), whole)
            == Ok(Meaning(v), if whole then "" else GapText(after))
  {
    hide ParseValue, Written, GapText, Skip, Meaning, Taken, Skipped;
    var end := GapText(after);
    GapParts(after, "");
    assert end + "" == end;
    SkipGap(before, Written(v) + end);
    ValueParses(v, end);
    ValueStart(v, end);
    SkipGap(after, "");
    NothingToSkip();
  }

  /** The promise of a parser: every text of RFC 8259, with any whitespace at each place that
      allows it, is read as what it means, and nothing of it is left over. */
  lemma TextParses(before: Gap, v: Syntax, after: Gap, whole: bool)
    requires GapOk(before) && Blank(before) && SyntaxOk(v) && Spaced(v) && GapOk(after) && Blank(after)
    ensures Parse(GapText(before) + (Written(v) + GapText(after)), whole)
            == Ok(Meaning(v), if whole then "" else GapText(after))
  {
    hide *;
    BlankSkipped(before);
    GrammarTaken(v);
    BlankSkipped(after);
    TakenParses(before, v, after, whole);
  }

  lemma NothingToSkip()
    ensures Skip("") == ""
  {
  }

  // ---- nothing else is taken ----------------------------------------------------------------

  lemma {:induction false} SkipTaken(s: string) returns (g: Gap)
    ensures Skipped(g) && s == GapText(g) + Skip(s)
  {
    if s != [] && s[0] <= ' ' {
      var more := SkipTaken(s[1..]);
      g := [Space(s[0])] + more;
      assert g[1..] == more && s == [s[0]] + s[1..];
      assert [s[0]] + (GapText(more) + Skip(s)) == GapText(g) + Skip(s);
    } else {
      g := [];
    }
  }

  /** Behind its quotes; the closing one may be missing at the end of the text. */
  ghost predicate Reads(s: string, v: Syntax, rest: string) {
    s == Written(v) + rest || (v.VString? && rest == "" && s + "\"" == Written(v))
  }

  /** Whatever parse_value accepts is a value it takes, with that meaning. */
  lemma {:induction false} ValueTaken(s: string) returns (v: Syntax)
    requires ParseValue(s).Ok?
    ensures Taken(v) && Meaning(v) == ParseValue(s).value && Reads(s, v, ParseValue(s).rest)
    decreases |s|, 1
  {
    hide ParseItems, ParseMembers, ParseNumber, Unescape, Skip, NumberItem, Denote, GapText, CharsText, CharsTaken, NumberTaken,
         WrittenElements, WrittenPairs, MeaningElements, MeaningPairs, ElementsTaken, PairsTaken, Skipped, Text;
    if SaysNull(s) {
      v := VNull;
      assert s == "null" + s[4..];
    } else if SaysFalse(s) {
      v := VFalse;
      assert s == "false" + s[5..];
    } else if SaysTrue(s) {
      v := VTrue;
      assert s == "true" + s[4..];
    } else if s[0] == '\"' {
      v := StringTaken(s);
    } else if s[0] == '-' || IsDigit(s[0]) {
      var l, rest := NumberSplit(s);
      v := VNumber(l);
    } else if s[0] == '[' {
      v := ArrayTaken(s);
    } else {
      v := ObjectTaken(s);
    }
  }

  lemma StringTaken(s: string) returns (v: Syntax)
    requires ParseValue(s).Ok? && Starts(s, '\"')
    ensures Taken(v) && Meaning(v) == ParseValue(s).value && Reads(s, v, ParseValue(s).rest)
  {
    hide ParseItems, ParseMembers, ParseNumber, Unescape, Skip, Denote, CharsText, CharsTaken;
    var cs, q := LiteralTaken(s[1..]);
    v := VString(cs);
    assert s == "\"" + (CharsText(cs) + q);
    if q == "" {
      assert s + "\"" == Literally(cs);
    } else {
      assert q == "\"" + q[1..];
      assert s == Literally(cs) + q[1..];
    }
  }

  lemma {:induction false} ArrayTaken(s: string) returns (v: Syntax)
    requires ParseValue(s).Ok? && Starts(s, '[')
    ensures Taken(v) && Meaning(v) == ParseValue(s).value && Reads(s, v, ParseValue(s).rest)
    decreases |s|, 0
  {
    hide ParseItems, ParseMembers, ParseNumber, Unescape, Skip, GapText, WrittenElements, MeaningElements, ElementsTaken,
         Skipped;
    var rest := ParseValue(s).rest;
    var gap := SkipTaken(s[1..]);
    var t := Skip(s[1..]);
    assert s == "[" + s[1..];
    if Starts(t, ']') {
      NoElements();
      v := VArray(gap, NoElement);
      assert t == "]" + rest;
      assert s == "[" + (GapText(gap) + ("" + "]")) + rest;
    } else {
      var items := ItemsTaken(t);
      v := VArray(gap, items);
      assert s == "[" + (GapText(gap) + (WrittenElements(items) + "]")) + rest;
    }
  }

  lemma {:induction false} ItemsTaken(s: string) returns (c: Elements)
    requires ParseItems(s).Ok?
    ensures c.Element? && ElementsTaken(c) && MeaningElements(c) == ParseItems(s).value
    ensures s == WrittenElements(c) + ("]" + ParseItems(s).rest)
    decreases |s|, 2
  {
    hide ParseValue, Skip, GapText, Written, Meaning, Taken, Skipped, WrittenElements;
    var v := ValueTaken(s);
    var t := Skip(ParseValue(s).rest);
    var after := SkipTaken(ParseValue(s).rest);
    NothingToSkip();
    NoElements();
    if Starts(t, ',') {
      var before := SkipTaken(t[1..]);
      var next := ItemsTaken(Skip(t[1..]));
      c := Element(v, after, before, next);
      assert t == "," + t[1..];
    } else {
      c := Element(v, after, [], NoElement);
      EmptySkipped();
      assert t == "]" + t[1..];
    }
    ElementText(c, "]" + ParseItems(s).rest);
  }

  lemma EmptySkipped()
    ensures Skipped([])
  {
  }

  lemma {:induction false} ObjectTaken(s: string) returns (v: Syntax)
    requires ParseValue(s).Ok? && Starts(s, '{')
    ensures Taken(v) && Meaning(v) == ParseValue(s).value && Reads(s, v, ParseValue(s).rest)
    decreases |s|, 0
  {
    hide ParseItems, ParseMembers, ParseNumber, Unescape, Skip, GapText, WrittenPairs, MeaningPairs, PairsTaken, Skipped;
    var rest := ParseValue(s).rest;
    var gap := SkipTaken(s[1..]);
    var t := Skip(s[1..]);
    assert s == "{" + s[1..];
    if Starts(t, '}') {
      NoElements();
      v := VObject(gap, NoPair);
      assert t == "}" + rest;
      assert s == "{" + (GapText(gap) + ("" + "}")) + rest;
    } else {
      var pairs := MembersTaken(t);
      v := VObject(gap, pairs);
      assert s == "{" + (GapText(gap) + (WrittenPairs(pairs) + "}")) + rest;
    }
  }

  lemma {:induction false} MembersTaken(s: string) returns (c: Pairs)
    requires ParseMembers(s).Ok?
    ensures c.Pair? && PairsTaken(c) && MeaningPairs(c) == ParseMembers(s).value
    ensures s == WrittenPairs(c) + ("}" + ParseMembers(s).rest)
    decreases |s|, 2
  {
    hide ParseValue, Skip, GapText, Written, Meaning, Taken, Skipped, WrittenPairs, Unescape, Denote, CharsTaken, CharsText,
         Literally;
    var k := Unescape(s[1..]).rest;
    var t := Skip(k);
    var u := Skip(t[1..]);
    var w := Skip(ParseValue(u).rest);
    NothingToSkip();
    NoElements();
    var name := NameTaken(s);
    var colon := SkipTaken(k);
    var gap := SkipTaken(t[1..]);
    var v := ValueTaken(u);
    var after := SkipTaken(ParseValue(u).rest);
    assert t == ":" + t[1..];
    if Starts(w, ',') {
      var before := SkipTaken(w[1..]);
      var next := MembersTaken(Skip(w[1..]));
      c := Pair(name, colon, gap, v, after, before, next);
      assert w == "," + w[1..];
    } else {
      c := Pair(name, colon, gap, v, after, [], NoPair);
      EmptySkipped();
      assert w == "}" + w[1..];
    }
    PairText(c, "}" + ParseMembers(s).rest);
  }

  /** A name is closed, for its colon follows. */
  lemma NameTaken(s: string) returns (name: seq<Char>)
    requires Starts(s, '\"') && Unescape(s[1..]).Ok? && Unescape(s[1..]).rest != ""
    ensures CharsTaken(name) && Denote(name) == Unescape(s[1..]).value
    ensures s == Literally(name) + Unescape(s[1..]).rest
  {
    hide Unescape, Denote, CharsText, CharsTaken;
    var q;
    name, q := LiteralTaken(s[1..]);
    assert s == "\"" + (CharsText(name) + q) && q == "\"" + q[1..];
    assert s == Literally(name) + q[1..];
  }

  lemma OpenStringParses(before: Gap, cs: seq<Char>)
    requires Skipped(before) && CharsTaken(cs)
    ensures Parse(GapText(before) + ("\"" + CharsText(cs)), true) == Ok(Str(Denote(cs)), "")
  {
    hide GapText, CharsText, CharsTaken, Unescape, Skip, Denote, ParseItems, ParseMembers, ParseNumber;
    var t := CharsText(cs);
    SkipGap(before, "\"" + t);
    SkipOne('\"', t);
    OpenLiteral(cs);
    assert ("\"" + t)[1..] == t;
    NothingToSkip();
  }

  /** Whatever cJSON_Parse accepts as a whole text is one it takes, with that meaning; only
      a string that is all of it may lack its closing quote. */
  lemma TextTaken(text: string) returns (before: Gap, v: Syntax, after: Gap)
    requires Parse(text, true).Ok?
    ensures Skipped(before) && Taken(v) && Skipped(after) && Parse(text, true) == Ok(Meaning(v), "")
    ensures text == GapText(before) + (Written(v) + GapText(after))
            || (v.VString? && text + "\"" == GapText(before) + Written(v))
  {
    hide ParseValue, Skip, GapText, Written, Meaning, Taken, Skipped;
    var s := Skip(text);
    before := SkipTaken(text);
    v := ValueTaken(s);
    var rest := ParseValue(s).rest;
    after := SkipTaken(rest);
    assert rest == GapText(after) + "" == GapText(after);
    if s != Written(v) + rest {
      assert text + "\"" == GapText(before) + (s + "\"");
    }
  }
}
