/** The parser of contrib/cjson/cJSON.c against the grammar of RFC 8259, numbers left out:
    it takes every text of the grammar for its value, whatever blanks and escapes it is
    written with, and apart from stray escapes nothing else. The printer's texts are some
    of these. */
module JsonGrammar {
  import opened Words
  import opened JsonText
  import opened Json

  // ---------------------------------------------------------------- texts

  /** A text with its blanks: a word, a string by its pieces, an array or an object. */
  datatype Doc =
    | Word(j: Json)
    | Text(ps: seq<Piece>)
    | List(gap: seq<byte>, elements: Elements)
    | Dict(gap: seq<byte>, entries: Entries)

  datatype Elements = NoElement | Element(before: seq<byte>, value: Doc, after: seq<byte>, next: Elements)

  datatype Entries =
    | NoEntry
    | Entry(before: seq<byte>, name: seq<Piece>, colon: seq<byte>, gap: seq<byte>, value: Doc, after: seq<byte>,
            next: Entries)

  function QuotedText(ps: seq<Piece>): seq<byte> { [QUOTE] + SpelledAll(ps) + [QUOTE] }

  function WordText(j: Json): seq<byte> {
    match j
    case JFalse => [102, 97, 108, 115, 101]
    case JTrue => [116, 114, 117, 101]
    case _ => [110, 117, 108, 108]
  }

  function Written(d: Doc): seq<byte> {
    match d
    case Word(j) => WordText(j)
    case Text(ps) => QuotedText(ps)
    case List(gap, es) => [91] + (gap + WrittenElements(es))
    case Dict(gap, es) => [123] + (gap + WrittenEntries(es))
  }

  /** The rest of an array, to its closing bracket. */
  function WrittenElements(es: Elements): seq<byte>
    decreases es, 0
  {
    match es
    case NoElement => [93]
    case Element(before, v, after, next) => before + (Written(v) + (after + MoreElements(next)))
  }

  function MoreElements(next: Elements): seq<byte>
    decreases next, 1
  {
    match next
    case NoElement => [93]
    case Element(_, _, _, _) => [44] + WrittenElements(next)
  }

  /** The rest of an object, to its closing brace. */
  function WrittenEntries(es: Entries): seq<byte>
    decreases es, 0
  {
    match es
    case NoEntry => [125]
    case Entry(before, name, colon, gap, v, after, next) =>
      before + (QuotedText(name) + (colon + ([58] + (gap + (Written(v) + (after + MoreEntries(next)))))))
  }

  function MoreEntries(next: Entries): seq<byte>
    decreases next, 1
  {
    match next
    case NoEntry => [125]
    case Entry(_, _, _, _, _, _, _) => [44] + WrittenEntries(next)
  }

  ghost predicate AllProper(ps: seq<Piece>) { forall p :: p in ps ==> Proper(p) }

  /** The blanks are blank and the strings are spelled by the grammar. */
  ghost predicate Legal(d: Doc) {
    match d
    case Word(j) => j.JNull? || j.JFalse? || j.JTrue?
    case Text(ps) => AllProper(ps)
    case List(gap, es) => Blank(gap) && LegalElements(es)
    case Dict(gap, es) => Blank(gap) && LegalEntries(es)
  }

  ghost predicate LegalElements(es: Elements) {
    match es
    case NoElement => true
    case Element(before, v, after, next) => Blank(before) && Legal(v) && Blank(after) && LegalElements(next)
  }

  ghost predicate LegalEntries(es: Entries) {
    match es
    case NoEntry => true
    case Entry(before, name, colon, gap, v, after, next) =>
      && Blank(before) && AllProper(name) && Blank(colon) && Blank(gap) && Legal(v) && Blank(after)
      && LegalEntries(next)
  }

  /** The bytes of a string are what its pieces stand for. */
  ghost predicate Spells(ps: seq<Piece>, text: seq<byte>) { exists bs :: MeanAll(ps, bs) && text == Flat(bs) }

  /** The value of a text. */
  ghost predicate Denotes(d: Doc, j: Json) {
    match d
    case Word(w) => j == w
    case Text(ps) => j.JString? && Spells(ps, j.text)
    case List(_, es) => j.JArray? && DenotesElements(es, j.items)
    case Dict(_, es) => j.JObject? && DenotesEntries(es, j.members)
  }

  ghost predicate DenotesElements(es: Elements, items: Items) {
    match es
    case NoElement => items == NoItem
    case Element(_, v, _, next) => items.Item? && Denotes(v, items.value) && DenotesElements(next, items.next)
  }

  ghost predicate DenotesEntries(es: Entries, members: Members) {
    match es
    case NoEntry => members == NoMember
    case Entry(_, name, _, _, v, _, next) =>
      && members.Member? && Spells(name, members.name) && Denotes(v, members.value)
      && DenotesEntries(next, members.next)
  }

  function Depth(d: Doc): nat {
    match d
    case List(_, es) => 1 + ElementsDepth(es)
    case Dict(_, es) => 1 + EntriesDepth(es)
    case _ => 0
  }

  function ElementsDepth(es: Elements): nat {
    match es
    case NoElement => 0
    case Element(_, v, _, next) => if Depth(v) >= ElementsDepth(next) then Depth(v) else ElementsDepth(next)
  }

  function EntriesDepth(es: Entries): nat {
    match es
    case NoEntry => 0
    case Entry(_, _, _, _, v, _, next) => if Depth(v) >= EntriesDepth(next) then Depth(v) else EntriesDepth(next)
  }

  // ---------------------------------------------------------------- every text is taken

  /** What a value begins with. */
  lemma Starts(d: Doc)
    requires Legal(d)
    ensures var t := Written(d); |t| >= 2 && 32 < t[0] < 128 && t[0] != 93 && t[0] != 125 && t[0] != 44
  {
    assert d.List? && d.elements.Element? ==> MoreElements(d.elements.next) != [];
    assert d.Dict? && d.entries.Entry? ==> MoreEntries(d.entries.next) != [];
  }

  lemma WordParses(s: seq<byte>, i: nat, d: Doc, depth: nat)
    requires Legal(d) && d.Word? && Stands(s, i, Written(d))
    ensures ParseValue(s, i, depth) == Got(d.j, i + |Written(d)|)
  {
    hide Stands;
    if d.j.JFalse? {
      OtherWord(s, i, NULL_TEXT, FALSE_TEXT);
    } else if d.j.JTrue? {
      OtherWord(s, i, NULL_TEXT, TRUE_TEXT);
      OtherWord(s, i, FALSE_TEXT, TRUE_TEXT);
    }
  }

  lemma QuotesParse(s: seq<byte>, i: nat, ps: seq<Piece>) returns (text: seq<byte>)
    requires AllProper(ps) && Stands(s, i, QuotedText(ps))
    ensures ParseString(s, i) == Got(text, i + |QuotedText(ps)|) && Spells(ps, text) && Is(s, i, QUOTE)
  {
    hide Stands, ParseString, MeanAll, SpelledAll, Flat;
    var bs := SpelledParses(s, i, ps);
    StandsAt(s, i, QuotedText(ps), 0);
    text := Flat(bs);
  }

  lemma TextParses(s: seq<byte>, i: nat, d: Doc, depth: nat) returns (j: Json)
    requires Legal(d) && d.Text? && Stands(s, i, Written(d))
    ensures ParseValue(s, i, depth) == Got(j, i + |Written(d)|) && Denotes(d, j)
  {
    hide Stands, ParseString, QuotedText, Spells, AllProper;
    var text := QuotesParse(s, i, d.ps);
    NoWord(s, i);
    j := JString(text);
  }

  /** The value is taken up to 1000 levels of nesting. */
  ghost predicate Taken<T>(g: Got<T>, fits: bool, v: T, at: nat) { g == if fits then Got(v, at) else Fail }

  lemma {:induction false} DocParses(s: seq<byte>, i: nat, d: Doc, depth: nat) returns (j: Json)
    requires Legal(d) && Stands(s, i, Written(d)) && depth <= NESTING_LIMIT
    ensures Taken(ParseValue(s, i, depth), depth + Depth(d) <= NESTING_LIMIT, j, i + |Written(d)|)
    ensures depth + Depth(d) <= NESTING_LIMIT ==> Denotes(d, j)
    decreases d
  {
    hide Stands, ParseValue, Written, Spells;
    match d
    case Word(w) =>
      WordParses(s, i, d, depth);
      j := w;
    case Text(_) => j := TextParses(s, i, d, depth);
    case List(gap, es) => j := ListParses(s, i, gap, es, depth);
    case Dict(gap, es) => j := DictParses(s, i, gap, es, depth);
  }

  lemma ListText(gap: seq<byte>, es: Elements)
    ensures Written(List(gap, es)) == [91] + (gap + WrittenElements(es))
    ensures Depth(List(gap, es)) == 1 + ElementsDepth(es) && ElementsDepth(NoElement) == 0
  {
  }

  lemma {:induction false} ListParses(s: seq<byte>, i: nat, gap: seq<byte>, es: Elements, depth: nat) returns (j: Json)
    requires Blank(gap) && LegalElements(es) && Stands(s, i, Written(List(gap, es))) && depth <= NESTING_LIMIT
    ensures Taken(ParseValue(s, i, depth), depth + Depth(List(gap, es)) <= NESTING_LIMIT, j,
                  i + |Written(List(gap, es))|)
    ensures depth + Depth(List(gap, es)) <= NESTING_LIMIT ==> Denotes(List(gap, es), j)
    decreases es, 2
  {
    hide Stands, Solid, Skip, ParseValue, ParseItems, Written, WrittenElements, Depth, ElementsDepth, Spells;
    ListText(gap, es);
    StandsParts(s, i, [91], gap + WrittenElements(es));
    StandsAt(s, i, [91], 0);
    ParseArray(s, i, depth);
    j := JArray(NoItem);
    if es.NoElement? {
      LastElement();
      SkipOver(s, i + 1, gap, [93]);
      StandsAt(s, i + 1 + |gap|, [93], 0);
    } else {
      FirstElement(s, i + 1, gap, es);
      if depth < NESTING_LIMIT {
        var items := ElementsParse(s, i + 1, gap, es, depth + 1);
        j := JArray(items);
      }
    }
  }

  lemma LastElement()
    ensures WrittenElements(NoElement) == [93] && MoreElements(NoElement) == [93]
  {
  }

  lemma ElementText(es: Elements)
    requires es.Element? && LegalElements(es)
    ensures WrittenElements(es) == es.before + (Written(es.value) + (es.after + MoreElements(es.next)))
    ensures Written(es.value) != [] && 32 < Written(es.value)[0] && Written(es.value)[0] != 93
    ensures ElementsDepth(es) ==
            if Depth(es.value) >= ElementsDepth(es.next) then Depth(es.value) else ElementsDepth(es.next)
    ensures es.next.NoElement? ==> ElementsDepth(es.next) == 0
    ensures MoreElements(es.next) != [] && MoreElements(es.next)[0] == (if es.next.NoElement? then 93 else 44)
    ensures es.next.Element? ==> MoreElements(es.next) == [44] + ([] + WrittenElements(es.next))
  {
    Starts(es.value);
    assert es.next.Element? ==> [] + WrittenElements(es.next) == WrittenElements(es.next);
  }

  /** An array that has an element does not close at once. */
  lemma FirstElement(s: seq<byte>, i: nat, ws: seq<byte>, es: Elements)
    requires Blank(ws) && es.Element? && LegalElements(es) && Stands(s, i, ws + WrittenElements(es))
    ensures !Is(s, Skip(s, i), 93)
  {
    hide Stands, Solid, Skip, Written, WrittenElements, MoreElements, Legal;
    ElementText(es);
    var rest := Written(es.value) + (es.after + MoreElements(es.next));
    Associate(ws, es.before, rest);
    SkipOver(s, i, ws + es.before, rest);
    StandsAt(s, i + |ws + es.before|, rest, 0);
  }

  lemma {:induction false} ElementsParse(s: seq<byte>, i: nat, ws: seq<byte>, es: Elements, depth: nat)
    returns (items: Items)
    requires Blank(ws) && es.Element? && LegalElements(es) && Stands(s, i, ws + WrittenElements(es))
    requires depth <= NESTING_LIMIT
    ensures Taken(ParseItems(s, i, depth), depth + ElementsDepth(es) <= NESTING_LIMIT, items,
                  i + |ws| + |WrittenElements(es)|)
    ensures depth + ElementsDepth(es) <= NESTING_LIMIT ==> DenotesElements(es, items)
    decreases es, 1
  {
    hide Stands, Written, WrittenElements, MoreElements, ParseValue, ParseItems, Solid, Skip, Depth, ElementsDepth,
      Legal, Denotes;
    var p, more := Written(es.value), MoreElements(es.next);
    ElementText(es);
    BlankJoin(ws, es.before);
    Associate(ws, es.before, p + (es.after + more));
    var k := ValueAt(s, i, ws + es.before, p, es.after, more);
    var v := DocParses(s, k, es.value, depth);
    ItemsStep(s, i, depth);
    LastElement();
    items := Item(v, NoItem);
    if depth + Depth(es.value) <= NESTING_LIMIT && es.next.Element? {
      var at := k + |p| + |es.after|;
      StandsParts(s, at, [44], [] + WrittenElements(es.next));
      var rest := ElementsParse(s, at + 1, [], es.next, depth);
      items := Item(v, rest);
    }
  }

  /** Where something stands that begins behind blanks, and what follows it. */
  lemma ValueAt(s: seq<byte>, i: nat, ws: seq<byte>, p: seq<byte>, after: seq<byte>, more: seq<byte>) returns (k: nat)
    requires Blank(ws) && Blank(after) && p != [] && p[0] > 32 && more != [] && more[0] > 32
    requires Stands(s, i, ws + (p + (after + more)))
    ensures k == Skip(s, i) == i + |ws| < |s| && i < |s| && Stands(s, k, p)
    ensures Skip(s, k + |p|) == k + |p| + |after| && Stands(s, k + |p| + |after|, more)
    ensures Is(s, k + |p| + |after|, more[0])
  {
    hide Stands, Solid, Skip;
    SkipOver(s, i, ws, p + (after + more));
    k := i + |ws|;
    StandsAt(s, k, p + (after + more), 0);
    StandsParts(s, k, p, after + more);
    SkipOver(s, k + |p|, after, more);
    StandsAt(s, k + |p| + |after|, more, 0);
  }

  lemma BlankJoin(a: seq<byte>, b: seq<byte>)
    requires Blank(a) && Blank(b)
    ensures Blank(a + b)
  {
  }

  lemma DictText(gap: seq<byte>, es: Entries)
    ensures Written(Dict(gap, es)) == [123] + (gap + WrittenEntries(es))
    ensures Depth(Dict(gap, es)) == 1 + EntriesDepth(es) && EntriesDepth(NoEntry) == 0
  {
  }

  lemma {:induction false} DictParses(s: seq<byte>, i: nat, gap: seq<byte>, es: Entries, depth: nat) returns (j: Json)
    requires Blank(gap) && LegalEntries(es) && Stands(s, i, Written(Dict(gap, es))) && depth <= NESTING_LIMIT
    ensures Taken(ParseValue(s, i, depth), depth + Depth(Dict(gap, es)) <= NESTING_LIMIT, j,
                  i + |Written(Dict(gap, es))|)
    ensures depth + Depth(Dict(gap, es)) <= NESTING_LIMIT ==> Denotes(Dict(gap, es), j)
    decreases es, 2
  {
    hide Stands, Solid, Skip, ParseValue, ParseMembers, Written, WrittenEntries, Depth, EntriesDepth, Spells;
    DictText(gap, es);
    StandsParts(s, i, [123], gap + WrittenEntries(es));
    StandsAt(s, i, [123], 0);
    ParseObject(s, i, depth);
    j := JObject(NoMember);
    if es.NoEntry? {
      LastEntry();
      SkipOver(s, i + 1, gap, [125]);
      StandsAt(s, i + 1 + |gap|, [125], 0);
    } else {
      FirstEntry(s, i + 1, gap, es);
      if depth < NESTING_LIMIT {
        var members := EntriesParse(s, i + 1, gap, es, depth + 1);
        j := JObject(members);
      }
    }
  }

  lemma LastEntry()
    ensures WrittenEntries(NoEntry) == [125] && MoreEntries(NoEntry) == [125]
  {
  }

  /** What follows the name of a member. */
  function FromColon(es: Entries): seq<byte>
    requires es.Entry?
  {
    [58] + (es.gap + (Written(es.value) + (es.after + MoreEntries(es.next))))
  }

  lemma EntryText(es: Entries)
    requires es.Entry? && LegalEntries(es)
    ensures WrittenEntries(es) == es.before + (QuotedText(es.name) + (es.colon + FromColon(es)))
    ensures Written(es.value) != [] && 32 < Written(es.value)[0]
    ensures EntriesDepth(es) ==
            if Depth(es.value) >= EntriesDepth(es.next) then Depth(es.value) else EntriesDepth(es.next)
    ensures es.next.NoEntry? ==> EntriesDepth(es.next) == 0
    ensures MoreEntries(es.next) != [] && MoreEntries(es.next)[0] == (if es.next.NoEntry? then 125 else 44)
    ensures es.next.Entry? ==> MoreEntries(es.next) == [44] + ([] + WrittenEntries(es.next))
  {
    Starts(es.value);
    assert es.next.Entry? ==> [] + WrittenEntries(es.next) == WrittenEntries(es.next);
  }

  /** An object that has a member does not close at once. */
  lemma FirstEntry(s: seq<byte>, i: nat, ws: seq<byte>, es: Entries)
    requires Blank(ws) && es.Entry? && LegalEntries(es) && Stands(s, i, ws + WrittenEntries(es))
    ensures !Is(s, Skip(s, i), 125)
  {
    hide Stands, Solid, Skip, Written, WrittenEntries, FromColon, Legal;
    EntryText(es);
    var rest := QuotedText(es.name) + (es.colon + FromColon(es));
    Associate(ws, es.before, rest);
    SkipOver(s, i, ws + es.before, rest);
    StandsAt(s, i + |ws + es.before|, rest, 0);
  }

  /** Where the name and the value of a member stand. */
  lemma EntryAt(s: seq<byte>, i: nat, ws: seq<byte>, es: Entries) returns (k: nat, v: nat)
    requires Blank(ws) && es.Entry? && LegalEntries(es) && Stands(s, i, ws + WrittenEntries(es))
    ensures k == Skip(s, i) && i < |s| && Stands(s, k, QuotedText(es.name))
    ensures var colon := Skip(s, k + |QuotedText(es.name)|); Is(s, colon, 58) && v == Skip(s, colon + 1)
    ensures var p, more := Written(es.value), MoreEntries(es.next);
            && Stands(s, v, p) && Stands(s, v + |p| + |es.after|, more)
            && Skip(s, v + |p|) == v + |p| + |es.after| && Is(s, v + |p| + |es.after|, more[0])
            && v + |p| + |es.after| + |more| == i + |ws| + |WrittenEntries(es)|
  {
    hide Stands, Solid, Skip, Written, WrittenEntries, MoreEntries, Legal, LegalEntries, Depth, EntriesDepth, Blank,
      AllProper;
    var q, p, more := QuotedText(es.name), Written(es.value), MoreEntries(es.next);
    EntryIsBlank(es);
    EntryText(es);
    BlankJoin(ws, es.before);
    Associate(ws, es.before, q + (es.colon + FromColon(es)));
    k := ValueAt(s, i, ws + es.before, q, es.colon, FromColon(es));
    StandsParts(s, k + |q| + |es.colon|, [58], es.gap + (p + (es.after + more)));
    v := ValueAt(s, k + |q| + |es.colon| + 1, es.gap, p, es.after, more);
  }

  lemma EntryIsBlank(es: Entries)
    requires es.Entry? && LegalEntries(es)
    ensures Blank(es.before) && Blank(es.colon) && Blank(es.gap) && Blank(es.after) && AllProper(es.name)
    ensures Legal(es.value) && LegalEntries(es.next)
  {
  }

  lemma {:induction false} EntriesParse(s: seq<byte>, i: nat, ws: seq<byte>, es: Entries, depth: nat)
    returns (members: Members)
    requires Blank(ws) && es.Entry? && LegalEntries(es) && Stands(s, i, ws + WrittenEntries(es))
    requires depth <= NESTING_LIMIT
    ensures Taken(ParseMembers(s, i, depth), depth + EntriesDepth(es) <= NESTING_LIMIT, members,
                  i + |ws| + |WrittenEntries(es)|)
    ensures depth + EntriesDepth(es) <= NESTING_LIMIT ==> DenotesEntries(es, members)
    decreases es, 1
  {
    hide Stands, Written, WrittenEntries, MoreEntries, ParseValue, ParseMembers, ParseString, Solid, Skip, Depth,
      EntriesDepth, Legal, LegalEntries, Denotes, Spells, AllProper, QuotedText;
    var p := Written(es.value);
    EntryIsBlank(es);
    EntryText(es);
    var k, at := EntryAt(s, i, ws, es);
    var name := QuotesParse(s, k, es.name);
    var v := DocParses(s, at, es.value, depth);
    MembersStep(s, i, depth, ParseString(s, k));
    LastEntry();
    members := Member(name, v, NoMember);
    if depth + Depth(es.value) <= NESTING_LIMIT && es.next.Entry? {
      var end := at + |p| + |es.after|;
      StandsParts(s, end, [44], [] + WrittenEntries(es.next));
      var rest := EntriesParse(s, end + 1, [], es.next, depth);
      members := Member(name, v, rest);
    }
  }

  function Mark(marked: bool): seq<byte> { if marked then [0xef, 0xbb, 0xbf] else [] }

  lemma Marked(marked: bool, s: seq<byte>)
    requires |Mark(marked)| + 2 <= |s| && Stands(s, 0, Mark(marked)) && s[|Mark(marked)|] < 128
    ensures Bom(s) == marked
  {
    assert !marked ==> s[..1][0] == s[0];
  }

  /** Every text of the grammar is taken for its value, if and only if it is nested at most
      1000 deep; a byte order mark and blanks may come before it, and anything may follow. */
  lemma EveryTextIsTaken(marked: bool, blank: seq<byte>, d: Doc, rest: seq<byte>) returns (j: Json)
    requires Blank(blank) && Legal(d)
    ensures var g := ParseText(Mark(marked) + blank + Written(d) + rest);
            && (g.Got? <==> Depth(d) <= 1000)
            && (g.Got? ==> g == Got(j, |Mark(marked)| + |blank| + |Written(d)|) && Denotes(d, j))
  {
    hide Written, Depth, Solid, Skip, Denotes, Legal, ParseValue;
    var m, t := Mark(marked), Written(d);
    var s := m + blank + t + rest;
    Starts(d);
    assert s[|m|..|m| + |blank + t|] == blank + t;
    assert s[|m|] < 128;
    Marked(marked, s);
    SkipOver(s, |m|, blank, t);
    j := DocParses(s, |m| + |blank|, d, 0);
  }

  // ---------------------------------------------------------------- nothing else is taken

  lemma StandsJoin(s: seq<byte>, i: nat, a: seq<byte>, b: seq<byte>)
    requires Stands(s, i, a) && Stands(s, i + |a|, b)
    ensures Stands(s, i, a + b)
  {
    assert s[i..i + |a + b|] == s[i..i + |a|] + s[i + |a|..i + |a| + |b|];
  }

  lemma StandsOne(s: seq<byte>, i: nat, c: byte)
    requires Is(s, i, c)
    ensures Stands(s, i, [c])
  {
  }

  lemma StandsNothing(s: seq<byte>, i: nat)
    requires i <= |s|
    ensures Stands(s, i, [])
  {
  }

  lemma {:induction false} SolidIs(s: seq<byte>, at: nat)
    requires at <= |s|
    ensures Blank(s[at..Solid(s, at)]) && (Solid(s, at) < |s| ==> s[Solid(s, at)] > 32)
    decreases |s| - at
  {
    if at < |s| && s[at] <= 32 {
      SolidIs(s, at + 1);
      assert s[at..Solid(s, at)] == [s[at]] + s[at + 1..Solid(s, at)];
    }
  }

  lemma BlankToEnd(s: seq<byte>, at: nat)
    requires at < |s|
    ensures Blank(s[at..|s|]) ==> s[|s| - 1] <= 32
  {
    assert s[at..|s|][|s| - 1 - at] == s[|s| - 1];
  }

  /** Where skipping finds something solid, it passed over blanks. */
  lemma Skipped(s: seq<byte>, at: nat) returns (blank: seq<byte>)
    requires Skip(s, at) < |s| && s[Skip(s, at)] > 32
    ensures Blank(blank) && Stands(s, at, blank) && at + |blank| == Skip(s, at)
  {
    SolidIs(s, at);
    blank := s[at..Skip(s, at)];
    assert s[at..Solid(s, at)][..|blank|] == blank;
    BlankToEnd(s, at);
  }

  lemma ValueStarts(s: seq<byte>, i: nat, depth: nat)
    requires ParseValue(s, i, depth).Got?
    ensures i < |s| && s[i] > 32
  {
    hide ParseItems, ParseMembers, ParseString, Skip;
    assert i < |s|;
    assert s[i..][0] == s[i];
    if s[i] <= 32 {
      NoWord(s, i);
    }
  }

  lemma StringStarts(s: seq<byte>, i: nat)
    requires ParseString(s, i).Got?
    ensures Is(s, i, QUOTE)
  {
  }

  /** The text at `i`, to `end`, is that of `d` and has the value `j`. */
  ghost predicate Fits(s: seq<byte>, i: nat, d: Doc, j: Json, end: nat, depth: nat) {
    && Legal(d) && Stands(s, i, Written(d)) && end == i + |Written(d)| && Denotes(d, j)
    && depth + Depth(d) <= NESTING_LIMIT
  }

  ghost predicate FitsElements(s: seq<byte>, i: nat, es: Elements, items: Items, end: nat, depth: nat) {
    && es.Element? && LegalElements(es) && Stands(s, i, WrittenElements(es)) && end == i + |WrittenElements(es)|
    && DenotesElements(es, items) && depth + ElementsDepth(es) <= NESTING_LIMIT
  }

  ghost predicate FitsEntries(s: seq<byte>, i: nat, es: Entries, members: Members, end: nat, depth: nat) {
    && es.Entry? && LegalEntries(es) && Stands(s, i, WrittenEntries(es)) && end == i + |WrittenEntries(es)|
    && DenotesEntries(es, members) && depth + EntriesDepth(es) <= NESTING_LIMIT
  }

  /** A \u escape somewhere in `s` that is not followed by four digits. */
  ghost predicate Strays(s: seq<byte>) { exists k :: Stray(s, k, |s|) }

  lemma StrayStands(s: seq<byte>, k: nat, end: nat)
    requires end <= |s| && Stray(s, k, end)
    ensures Strays(s)
  {
    assert Stray(s, k, |s|);
  }

  lemma StringIsQuoted(s: seq<byte>, i: nat) returns (ps: seq<Piece>)
    requires ParseString(s, i).Got? && !Strays(s)
    ensures var g := ParseString(s, i);
            AllProper(ps) && Stands(s, i, QuotedText(ps)) && g.at == i + |QuotedText(ps)| && Spells(ps, g.value)
  {
    hide ParseString, SpelledAll, Flat, Proper, Means, Stray, Strays;
    var stray, k, qs, bs := ParsedIsSpelled(s, i);
    if stray {
      StrayStands(s, k, ParseString(s, i).at - 1);
    }
    ps := qs;
    forall p | p in ps ensures Proper(p) {
      var n :| 0 <= n < |ps| && ps[n] == p;
    }
  }

  /** Whatever is taken is a text of the grammar, unless a stray escape stands in the input. */
  lemma {:induction false} TakenIsText(s: seq<byte>, i: nat, depth: nat) returns (d: Doc)
    requires ParseValue(s, i, depth).Got? && !Strays(s) && depth <= NESTING_LIMIT
    ensures var g := ParseValue(s, i, depth); Fits(s, i, d, g.value, g.at, depth)
    decreases |s| - i, 1
  {
    hide ParseItems, ParseMembers, ParseString, Skip, Strays, Spells;
    var g := ParseValue(s, i, depth);
    if Is(s, i, QUOTE) {
      NoWord(s, i);
      var ps := StringIsQuoted(s, i);
      d := Text(ps);
    } else if Is(s, i, OPEN_BRACKET) {
      d := TakenIsList(s, i, depth);
    } else if Is(s, i, OPEN_BRACE) {
      d := TakenIsDict(s, i, depth);
    } else {
      d := Word(g.value);
    }
  }

  lemma {:induction false} TakenIsList(s: seq<byte>, i: nat, depth: nat) returns (d: Doc)
    requires ParseValue(s, i, depth).Got? && !Strays(s) && depth <= NESTING_LIMIT && Is(s, i, OPEN_BRACKET)
    ensures var g := ParseValue(s, i, depth); Fits(s, i, d, g.value, g.at, depth)
    decreases |s| - i, 0
  {
    hide ParseItems, ParseMembers, ParseString, ParseValue, Skip, Strays, Stands, Written, WrittenElements, Depth;
    ParseArray(s, i, depth);
    var gap, es := [], NoElement;
    if Is(s, Skip(s, i + 1), CLOSE_BRACKET) {
      gap := Skipped(s, i + 1);
      StandsOne(s, Skip(s, i + 1), 93);
      LastElement();
    } else {
      es := TakenIsElements(s, i + 1, depth + 1);
      StandsNothing(s, i + 1);
    }
    StandsOne(s, i, 91);
    StandsJoin(s, i + 1, gap, WrittenElements(es));
    StandsJoin(s, i, [91], gap + WrittenElements(es));
    ListText(gap, es);
    d := List(gap, es);
    assert Legal(d);
    assert Denotes(d, ParseValue(s, i, depth).value);
  }

  lemma {:induction false} TakenIsElements(s: seq<byte>, i: nat, depth: nat) returns (es: Elements)
    requires ParseItems(s, i, depth).Got? && !Strays(s) && depth <= NESTING_LIMIT
    ensures var g := ParseItems(s, i, depth); FitsElements(s, i, es, g.value, g.at, depth)
    decreases |s| - i, 2
  {
    hide ParseItems, ParseMembers, ParseString, ParseValue, Skip, Strays, Stands, WrittenElements, Written, Legal,
      Denotes, Depth;
    assert i < |s| by {
      if i >= |s| {
        PastEnd(s, i, depth);
      }
    }
    ItemsStep(s, i, depth);
    var k := Skip(s, i);
    var v := ParseValue(s, k, depth);
    ValueStarts(s, k, depth);
    var before := Skipped(s, i);
    var d := TakenIsText(s, k, depth);
    var c := Skip(s, v.at);
    var after := Skipped(s, v.at);
    es := Element(before, d, after, NoElement);
    StandsOne(s, c, s[c]);
    LastElement();
    if Is(s, c, COMMA) {
      var next := TakenIsElements(s, c + 1, depth);
      es := Element(before, d, after, next);
      StandsJoin(s, c, [44], WrittenElements(next));
    }
    assert Stands(s, c, MoreElements(es.next));
    ElementStands(s, i, es);
    assert depth + ElementsDepth(es) <= NESTING_LIMIT && DenotesElements(es, ParseItems(s, i, depth).value);
  }

  lemma ElementStands(s: seq<byte>, i: nat, es: Elements)
    requires es.Element? && LegalElements(es)
    requires Stands(s, i, es.before) && Stands(s, i + |es.before|, Written(es.value))
    requires Stands(s, i + |es.before| + |Written(es.value)|, es.after)
    requires Stands(s, i + |es.before| + |Written(es.value)| + |es.after|, MoreElements(es.next))
    ensures Stands(s, i, WrittenElements(es))
    ensures |WrittenElements(es)| == |es.before| + |Written(es.value)| + |es.after| + |MoreElements(es.next)|
  {
    hide Stands, Written, MoreElements, Legal;
    var k := i + |es.before|;
    StandsJoin(s, k + |Written(es.value)|, es.after, MoreElements(es.next));
    StandsJoin(s, k, Written(es.value), es.after + MoreElements(es.next));
    StandsJoin(s, i, es.before, Written(es.value) + (es.after + MoreElements(es.next)));
  }

  lemma {:induction false} TakenIsDict(s: seq<byte>, i: nat, depth: nat) returns (d: Doc)
    requires ParseValue(s, i, depth).Got? && !Strays(s) && depth <= NESTING_LIMIT && Is(s, i, OPEN_BRACE)
    ensures var g := ParseValue(s, i, depth); Fits(s, i, d, g.value, g.at, depth)
    decreases |s| - i, 0
  {
    hide ParseItems, ParseMembers, ParseString, ParseValue, Skip, Strays, Stands, Written, WrittenEntries, Depth;
    ParseObject(s, i, depth);
    var gap, es := [], NoEntry;
    if Is(s, Skip(s, i + 1), CLOSE_BRACE) {
      gap := Skipped(s, i + 1);
      StandsOne(s, Skip(s, i + 1), 125);
      LastEntry();
    } else {
      es := TakenIsEntries(s, i + 1, depth + 1);
      StandsNothing(s, i + 1);
    }
    StandsOne(s, i, 123);
    StandsJoin(s, i + 1, gap, WrittenEntries(es));
    StandsJoin(s, i, [123], gap + WrittenEntries(es));
    DictText(gap, es);
    d := Dict(gap, es);
    assert Legal(d);
    assert Denotes(d, ParseValue(s, i, depth).value);
  }

  lemma {:induction false} TakenIsEntries(s: seq<byte>, i: nat, depth: nat) returns (es: Entries)
    requires ParseMembers(s, i, depth).Got? && !Strays(s) && depth <= NESTING_LIMIT
    ensures var g := ParseMembers(s, i, depth); FitsEntries(s, i, es, g.value, g.at, depth)
    decreases |s| - i, 2
  {
    hide ParseItems, ParseMembers, ParseString, ParseValue, Skip, Strays, Stands, WrittenEntries, Written, Legal,
      Denotes, Depth, Spells, QuotedText, AllProper;
    assert i < |s| by {
      if i >= |s| {
        PastEnd(s, i, depth);
      }
    }
    NamelessFails(s, i, depth);
    var q := Skip(s, i);
    var name := ParseString(s, q);
    MembersStep(s, i, depth, name);
    StringStarts(s, q);
    var before := Skipped(s, i);
    var ps := StringIsQuoted(s, q);
    var colon := Skipped(s, name.at);
    var m := Skip(s, name.at);
    StandsOne(s, m, 58);
    var k := Skip(s, m + 1);
    var v := ParseValue(s, k, depth);
    ValueStarts(s, k, depth);
    var gap := Skipped(s, m + 1);
    var d := TakenIsText(s, k, depth);
    var c := Skip(s, v.at);
    var after := Skipped(s, v.at);
    es := Entry(before, ps, colon, gap, d, after, NoEntry);
    StandsOne(s, c, s[c]);
    LastEntry();
    if Is(s, c, COMMA) {
      var next := TakenIsEntries(s, c + 1, depth);
      es := Entry(before, ps, colon, gap, d, after, next);
      StandsJoin(s, c, [44], WrittenEntries(next));
    }
    assert Stands(s, c, MoreEntries(es.next));
    EntryStands(s, i, es, q, m, k, c);
    assert depth + EntriesDepth(es) <= NESTING_LIMIT && DenotesEntries(es, ParseMembers(s, i, depth).value);
  }

  lemma EntryStands(s: seq<byte>, i: nat, es: Entries, q: nat, m: nat, k: nat, c: nat)
    requires es.Entry? && LegalEntries(es)
    requires Stands(s, i, es.before) && q == i + |es.before| && Stands(s, q, QuotedText(es.name))
    requires Stands(s, q + |QuotedText(es.name)|, es.colon) && m == q + |QuotedText(es.name)| + |es.colon|
    requires Stands(s, m, [58]) && Stands(s, m + 1, es.gap) && k == m + 1 + |es.gap| && Stands(s, k, Written(es.value))
    requires Stands(s, k + |Written(es.value)|, es.after) && c == k + |Written(es.value)| + |es.after|
    requires Stands(s, c, MoreEntries(es.next))
    ensures Stands(s, i, WrittenEntries(es)) && i + |WrittenEntries(es)| == c + |MoreEntries(es.next)|
  {
    hide Stands, Written, MoreEntries, Legal, QuotedText;
    var p, more := Written(es.value), MoreEntries(es.next);
    StandsJoin(s, k + |p|, es.after, more);
    StandsJoin(s, k, p, es.after + more);
    StandsJoin(s, m + 1, es.gap, p + (es.after + more));
    StandsJoin(s, m, [58], es.gap + (p + (es.after + more)));
    StandsJoin(s, q + |QuotedText(es.name)|, es.colon, FromColon(es));
    StandsJoin(s, q, QuotedText(es.name), es.colon + FromColon(es));
    StandsJoin(s, i, es.before, QuotedText(es.name) + (es.colon + FromColon(es)));
  }

  /** What is taken from a text without stray escapes is the value of what stands there. */
  lemma NothingElseIsTaken(s: seq<byte>) returns (marked: bool, blank: seq<byte>, d: Doc)
    requires ParseText(s).Got? && !Strays(s)
    ensures var g := ParseText(s);
            && Blank(blank) && Legal(d) && Depth(d) <= 1000 && Denotes(d, g.value)
            && Stands(s, 0, Mark(marked) + blank + Written(d)) && g.at == |Mark(marked) + blank + Written(d)|
  {
    hide ParseValue, Skip, Solid, Strays, Legal, Written, Depth, Denotes, Stands;
    marked := Bom(s);
    var m := Mark(marked);
    var k := Skip(s, |m|);
    ValueStarts(s, k, 0);
    blank := Skipped(s, |m|);
    d := TakenIsText(s, k, 0);
    MarkStands(s);
    StandsJoin(s, 0, m, blank);
    StandsJoin(s, 0, m + blank, Written(d));
  }

  lemma MarkStands(s: seq<byte>)
    ensures Stands(s, 0, Mark(Bom(s)))
  {
  }

  // ---------------------------------------------------------------- printed texts

  /** The text that the printer writes. */
  function DocOf(j: Json, fmt: bool, d: nat): Doc {
    match j
    case JString(text) => Text(PiecesOf(text))
    case JArray(items) => List([], ElementsOf(items, [], fmt, d + 1))
    case JObject(members) =>
      Dict(If(fmt, [10]) + If(fmt && members.NoMember?, Tabs(d)), EntriesOf(members, [], fmt, d + 1))
    case _ => Word(j)
  }

  function ElementsOf(items: Items, before: seq<byte>, fmt: bool, d: nat): Elements {
    match items
    case NoItem => NoElement
    case Item(v, next) => Element(before, DocOf(v, fmt, d), [], ElementsOf(next, If(fmt, [32]), fmt, d))
  }

  function EntriesOf(members: Members, before: seq<byte>, fmt: bool, d: nat): Entries
    requires d > 0
  {
    match members
    case NoMember => NoEntry
    case Member(name, v, next) =>
      Entry(before + If(fmt, Tabs(d)), PiecesOf(name), [], If(fmt, [9]), DocOf(v, fmt, d),
            AfterLast(next, fmt, d), EntriesOf(next, If(fmt, [10]), fmt, d))
  }

  lemma QuotedIs(text: seq<byte>)
    ensures QuotedText(PiecesOf(text)) == Quoted(text) && AllProper(PiecesOf(text))
  {
    hide Escape, PieceOf, Proper;
    EscapeAllIs(text);
    forall p | p in PiecesOf(text) ensures Proper(p) {
      var k :| 0 <= k < |text| && PiecesOf(text)[k] == p;
      EscapeIsPiece(text[k]);
    }
  }

  lemma {:induction false} PrintedIs(j: Json, fmt: bool, d: nat)
    ensures Written(DocOf(j, fmt, d)) == Print(j, fmt, d)
    ensures Legal(DocOf(j, fmt, d)) && Depth(DocOf(j, fmt, d)) == Height(j)
    decreases j
  {
    hide Quoted, QuotedText, PiecesOf, AllProper, Tabs, PrintItems, PrintMembers, ElementsOf, EntriesOf, LegalElements,
      LegalEntries, ElementsDepth, EntriesDepth, WrittenElements, WrittenEntries;
    match j
    case JString(text) => QuotedIs(text);
    case JArray(items) =>
      PrintedItemsAre(items, [], fmt, d + 1);
      Nothing(PrintItems(items, fmt, d + 1));
      Nothing(WrittenElements(ElementsOf(items, [], fmt, d + 1)));
    case JObject(members) =>
      var nl, es := If(fmt, [10]), EntriesOf(members, [], fmt, d + 1);
      PrintedMembersAre(members, [], fmt, d + 1);
      Nothing(PrintMembers(members, fmt, d + 1));
      NoMemberText(fmt, d + 1);
      Associate(nl, If(fmt && members.NoMember?, Tabs(d)), WrittenEntries(es));
    case _ =>
  }

  lemma NoMemberText(fmt: bool, d: nat)
    requires d > 0
    ensures PrintMembers(NoMember, fmt, d) == If(fmt, Tabs(d - 1)) + [125]
    ensures WrittenEntries(EntriesOf(NoMember, [], fmt, d)) == [125]
  {
  }

  lemma Nothing(t: seq<byte>)
    ensures [] + t == t
  {
  }

  lemma {:induction false} PrintedItemsAre(items: Items, before: seq<byte>, fmt: bool, d: nat)
    requires Blank(before)
    ensures var es := ElementsOf(items, before, fmt, d);
            && WrittenElements(es) == If(items.Item?, before) + PrintItems(items, fmt, d)
            && LegalElements(es) && ElementsDepth(es) == ItemsHeight(items)
    decreases items
  {
    hide Written, Print, Legal, Depth, Height, DocOf;
    if items.Item? {
      var gap, next := If(fmt, [32]), PrintItems(items.next, fmt, d);
      PrintedIs(items.value, fmt, d);
      PrintedItemsAre(items.next, gap, fmt, d);
      Nothing(MoreElements(ElementsOf(items.next, gap, fmt, d)));
      Associate([44], gap, next);
    }
  }

  /** What a member's value ends with: blanks of its own, or the comma of the next. */
  function AfterLast(next: Members, fmt: bool, d: nat): (t: seq<byte>)
    requires d > 0
    ensures Blank(t)
  {
    if next.Member? then [] else If(fmt, [10]) + If(fmt, Tabs(d - 1))
  }

  lemma AfterEntry(next: Members, fmt: bool, d: nat)
    requires d > 0
    requires next.Member? ==>
               WrittenEntries(EntriesOf(next, If(fmt, [10]), fmt, d)) == If(fmt, [10]) + PrintMembers(next, fmt, d)
    ensures AfterLast(next, fmt, d) + MoreEntries(EntriesOf(next, If(fmt, [10]), fmt, d))
         == If(next.Member?, [44]) + (If(fmt, [10]) + PrintMembers(next, fmt, d))
  {
    hide Tabs, WrittenEntries;
    if next.Member? {
      hide PrintMembers;
      Nothing(MoreEntries(EntriesOf(next, If(fmt, [10]), fmt, d)));
    } else {
      var nl, tabs := If(fmt, [10]), If(fmt, Tabs(d - 1));
      Associate(nl, tabs, [125]);
      Nothing(nl + (tabs + [125]));
    }
  }

  lemma {:induction false} PrintedMembersAre(members: Members, before: seq<byte>, fmt: bool, d: nat)
    requires d > 0 && Blank(before)
    ensures var es := EntriesOf(members, before, fmt, d);
            && WrittenEntries(es) == (if members.Member? then before + PrintMembers(members, fmt, d) else [125])
            && LegalEntries(es) && EntriesDepth(es) == MembersHeight(members)
    decreases members
  {
    hide Written, Print, Legal, Depth, Height, DocOf, Quoted, QuotedText, PiecesOf, AllProper, Tabs;
    if members.Member? {
      var nl, tabs, next := If(fmt, [10]), If(fmt, Tabs(d)), PrintMembers(members.next, fmt, d);
      QuotedIs(members.name);
      PrintedIs(members.value, fmt, d);
      PrintedMembersAre(members.next, nl, fmt, d);
      var es := EntriesOf(members, before, fmt, d);
      AfterEntry(members.next, fmt, d);
      Nothing(FromColon(es));
      Associate(before, tabs, QuotedText(es.name) + FromColon(es));
    }
  }

  lemma SpellsIt(text: seq<byte>, bytes: seq<byte>)
    requires Spells(PiecesOf(text), bytes)
    ensures bytes == text
  {
    hide Means, Proper, PieceOf;
    var bs :| MeanAll(PiecesOf(text), bs) && bytes == Flat(bs);
    forall k | 0 <= k < |text| ensures bs[k] == [text[k]] {
      PieceIsByte(text[k], bs[k]);
    }
    FlatSingles(bs, text);
  }

  lemma {:induction false} DenotesIt(j: Json, fmt: bool, d: nat, k: Json)
    requires Denotes(DocOf(j, fmt, d), k)
    ensures k == j
    decreases j
  {
    match j
    case JString(text) => SpellsIt(text, k.text);
    case JArray(items) => DenoteItems(items, [], fmt, d + 1, k.items);
    case JObject(members) => DenoteMembers(members, [], fmt, d + 1, k.members);
    case _ =>
  }

  lemma {:induction false} DenoteItems(items: Items, before: seq<byte>, fmt: bool, d: nat, ks: Items)
    requires DenotesElements(ElementsOf(items, before, fmt, d), ks)
    ensures ks == items
    decreases items
  {
    if items.Item? {
      DenotesIt(items.value, fmt, d, ks.value);
      DenoteItems(items.next, If(fmt, [32]), fmt, d, ks.next);
    }
  }

  lemma {:induction false} DenoteMembers(members: Members, before: seq<byte>, fmt: bool, d: nat, ks: Members)
    requires d > 0 && DenotesEntries(EntriesOf(members, before, fmt, d), ks)
    ensures ks == members
    decreases members
  {
    if members.Member? {
      SpellsIt(members.name, ks.name);
      DenotesIt(members.value, fmt, d, ks.value);
      DenoteMembers(members.next, If(fmt, [10]), fmt, d, ks.next);
    }
  }

  /** Printing then parsing gives the tree back, if and only if it is nested at most
      1000 deep. */
  lemma PrintParse(j: Json, fmt: bool)
    ensures ParseText(Print(j, fmt, 0)) ==
            if Height(j) <= 1000 then Got(j, |Print(j, fmt, 0)|) else Fail
  {
    hide Print, ParseText, Written, Height, Depth, DocOf, Denotes, Legal;
    var t := Print(j, fmt, 0);
    PrintedIs(j, fmt, 0);
    assert Mark(false) + [] + t + [] == t;
    var k := EveryTextIsTaken(false, [], DocOf(j, fmt, 0), []);
    if Height(j) <= NESTING_LIMIT {
      DenotesIt(j, fmt, 0, k);
    }
  }
}
