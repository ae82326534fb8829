/** The JSON printer and parser of contrib/cjson/cJSON.c on trees of null,
    booleans, strings, arrays and objects, whose children are linked lists. */
module Json {
  import opened Words
  import opened JsonText

  const NESTING_LIMIT := 1000
  const COMMA: byte := 44
  const COLON: byte := 58
  const OPEN_BRACKET: byte := 91
  const CLOSE_BRACKET: byte := 93
  const OPEN_BRACE: byte := 123
  const CLOSE_BRACE: byte := 125

  datatype Json =
    | JNull | JFalse | JTrue
    | JString(text: seq<byte>)
    | JArray(items: Items)
    | JObject(members: Members)

  datatype Items = NoItem | Item(value: Json, next: Items)

  datatype Members = NoMember | Member(name: seq<byte>, value: Json, next: Members)

  /** How deep arrays and objects are nested. */
  function Height(j: Json): nat {
    match j
    case JArray(items) => 1 + ItemsHeight(items)
    case JObject(members) => 1 + MembersHeight(members)
    case _ => 0
  }

  function ItemsHeight(items: Items): nat {
    match items
    case NoItem => 0
    case Item(v, next) => if Height(v) >= ItemsHeight(next) then Height(v) else ItemsHeight(next)
  }

  function MembersHeight(members: Members): nat {
    match members
    case NoMember => 0
    case Member(_, v, next) => if Height(v) >= MembersHeight(next) then Height(v) else MembersHeight(next)
  }

  // ---------------------------------------------------------------- printing

  function Tabs(n: nat): (t: seq<byte>)
    ensures Blank(t)
  {
    if n == 0 then [] else [9] + Tabs(n - 1)
  }

  predicate Blank(t: seq<byte>) { forall i :: 0 <= i < |t| ==> t[i] <= 32 }

  function If(b: bool, t: seq<byte>): seq<byte> { if b then t else [] }

  const NULL_TEXT: seq<byte> := [110, 117, 108, 108]
  const FALSE_TEXT: seq<byte> := [102, 97, 108, 115, 101]
  const TRUE_TEXT: seq<byte> := [116, 114, 117, 101]

  /** print_value at nesting depth `d`, with line breaks and tabs if `fmt`. */
  function Print(j: Json, fmt: bool, d: nat): seq<byte> {
    match j
    case JNull => NULL_TEXT
    case JFalse => FALSE_TEXT
    case JTrue => TRUE_TEXT
    case JString(text) => Quoted(text)
    case JArray(items) => [OPEN_BRACKET] + PrintItems(items, fmt, d + 1)
    case JObject(members) => [OPEN_BRACE] + (If(fmt, [10]) + PrintMembers(members, fmt, d + 1))
  }

  /** The rest of an array, from an item to the closing bracket. */
  function PrintItems(items: Items, fmt: bool, d: nat): seq<byte> {
    match items
    case NoItem => [CLOSE_BRACKET]
    case Item(v, next) =>
      Print(v, fmt, d) + (If(next.Item?, [COMMA] + If(fmt, [32])) + PrintItems(next, fmt, d))
  }

  /** The rest of an object, from the start of a line to the closing brace. */
  function PrintMembers(members: Members, fmt: bool, d: nat): seq<byte>
    requires d > 0
  {
    match members
    case NoMember => If(fmt, Tabs(d - 1)) + [CLOSE_BRACE]
    case Member(name, v, next) =>
      If(fmt, Tabs(d)) + (Quoted(name) + ([COLON] + (If(fmt, [9]) +
        (Print(v, fmt, d) + (If(next.Member?, [COMMA]) + (If(fmt, [10]) + PrintMembers(next, fmt, d)))))))
  }

  // ---------------------------------------------------------------- parsing

  /** The first offset from `at` on that is not blank, or the length. */
  function Solid(s: seq<byte>, at: nat): (k: nat)
    requires at <= |s|
    ensures at <= k <= |s|
    decreases |s| - at
  {
    if at < |s| && s[at] <= 32 then Solid(s, at + 1) else at
  }

  /** buffer_skip_whitespace: it steps back from the end of the input. */
  function Skip(s: seq<byte>, at: nat): (k: nat)
    ensures at <= k && (at < |s| ==> k < |s|)
  {
    if at >= |s| then at
    else if Solid(s, at) == |s| then |s| - 1 else Solid(s, at)
  }

  predicate Reads(s: seq<byte>, at: nat, t: seq<byte>) { Stands(s, at, t) }

  predicate Is(s: seq<byte>, at: nat, c: byte) { at < |s| && s[at] == c }

  /** parse_value without numbers. */
  function ParseValue(s: seq<byte>, at: nat, depth: nat): (g: Got<Json>)
    ensures g.Got? ==> at < g.at <= |s|
    decreases |s| - at, 1
  {
    if Reads(s, at, NULL_TEXT) then Got(JNull, at + 4)
    else if Reads(s, at, FALSE_TEXT) then Got(JFalse, at + 5)
    else if Reads(s, at, TRUE_TEXT) then Got(JTrue, at + 4)
    else if Is(s, at, QUOTE) then
      var g := ParseString(s, at);
      if g.Fail? then Fail else Got(JString(g.value), g.at)
    else if Is(s, at, OPEN_BRACKET) then
      if depth >= NESTING_LIMIT then Fail
      else if Is(s, Skip(s, at + 1), CLOSE_BRACKET) then Got(JArray(NoItem), Skip(s, at + 1) + 1)
      else
        var g := ParseItems(s, at + 1, depth + 1);
        if g.Fail? then Fail else Got(JArray(g.value), g.at)
    else if Is(s, at, OPEN_BRACE) then
      if depth >= NESTING_LIMIT then Fail
      else if Is(s, Skip(s, at + 1), CLOSE_BRACE) then Got(JObject(NoMember), Skip(s, at + 1) + 1)
      else
        var g := ParseMembers(s, at + 1, depth + 1);
        if g.Fail? then Fail else Got(JObject(g.value), g.at)
    else Fail
  }

  /** The loop of parse_array, from just behind the bracket or a comma. */
  function ParseItems(s: seq<byte>, at: nat, depth: nat): (g: Got<Items>)
    ensures g.Got? ==> at < g.at <= |s|
    decreases |s| - at, 2
  {
    if at >= |s| then Fail
    else
      var v := ParseValue(s, Skip(s, at), depth);
      if v.Fail? then Fail
      else
        var c := Skip(s, v.at);
        if Is(s, c, COMMA) then
          var rest := ParseItems(s, c + 1, depth);
          if rest.Fail? then Fail else Got(Item(v.value, rest.value), rest.at)
        else if Is(s, c, CLOSE_BRACKET) then Got(Item(v.value, NoItem), c + 1)
        else Fail
  }

  /** The loop of parse_object, from just behind the brace or a comma. */
  function ParseMembers(s: seq<byte>, at: nat, depth: nat): (g: Got<Members>)
    ensures g.Got? ==> at < g.at <= |s|
    decreases |s| - at, 2
  {
    if at >= |s| then Fail
    else
      var name := ParseString(s, Skip(s, at));
      if name.Fail? || !Is(s, Skip(s, name.at), COLON) then Fail
      else
        var v := ParseValue(s, Skip(s, Skip(s, name.at) + 1), depth);
        if v.Fail? then Fail
        else
          var c := Skip(s, v.at);
          if Is(s, c, COMMA) then
            var rest := ParseMembers(s, c + 1, depth);
            if rest.Fail? then Fail else Got(Member(name.value, v.value, rest.value), rest.at)
          else if Is(s, c, CLOSE_BRACE) then Got(Member(name.value, v.value, NoMember), c + 1)
          else Fail
  }

  predicate Bom(s: seq<byte>) { |s| > 4 && s[..3] == [0xef, 0xbb, 0xbf] }

  /** cJSON_ParseWithLength */
  function ParseText(s: seq<byte>): Got<Json> {
    ParseValue(s, Skip(s, if Bom(s) then 3 else 0), 0)
  }

  // ---------------------------------------------------------------- steps

  lemma {:induction false} SolidOver(s: seq<byte>, at: nat, t: seq<byte>)
    requires Stands(s, at, t) && Blank(t) && at + |t| < |s| && s[at + |t|] > 32
    ensures Solid(s, at) == at + |t|
    decreases |t|
  {
    if t != [] {
      StandsAt(s, at, t, 0);
      assert t == [t[0]] + t[1..];
      StandsParts(s, at, [t[0]], t[1..]);
      SolidOver(s, at + 1, t[1..]);
    }
  }

  /** Skipping passes over blanks and stops at what follows. */
  lemma SkipOver(s: seq<byte>, at: nat, t: seq<byte>, after: seq<byte>)
    requires Stands(s, at, t + after) && Blank(t) && after != [] && after[0] > 32
    ensures Skip(s, at) == at + |t| && Stands(s, at + |t|, after)
  {
    StandsParts(s, at, t, after);
    StandsAt(s, at + |t|, after, 0);
    SolidOver(s, at, t);
  }

  /** A text that begins with some other character is none of the three words. */
  lemma NoWord(s: seq<byte>, at: nat)
    requires at < |s| && s[at] != 110 && s[at] != 102 && s[at] != 116
    ensures !Reads(s, at, NULL_TEXT) && !Reads(s, at, FALSE_TEXT) && !Reads(s, at, TRUE_TEXT)
  {
    if Reads(s, at, NULL_TEXT) {
      StandsAt(s, at, NULL_TEXT, 0);
    }
    if Reads(s, at, FALSE_TEXT) {
      StandsAt(s, at, FALSE_TEXT, 0);
    }
    if Reads(s, at, TRUE_TEXT) {
      StandsAt(s, at, TRUE_TEXT, 0);
    }
  }

  /** parse_value on a bracket, which is parse_array. */
  lemma ParseArray(s: seq<byte>, i: nat, depth: nat)
    requires Is(s, i, OPEN_BRACKET)
    ensures ParseValue(s, i, depth) ==
            if depth >= NESTING_LIMIT then Fail
            else if Is(s, Skip(s, i + 1), CLOSE_BRACKET) then Got(JArray(NoItem), Skip(s, i + 1) + 1)
            else
              var g := ParseItems(s, i + 1, depth + 1);
              if g.Fail? then Fail else Got(JArray(g.value), g.at)
  {
    NoWord(s, i);
  }

  /** parse_value on a brace, which is parse_object. */
  lemma ParseObject(s: seq<byte>, i: nat, depth: nat)
    requires Is(s, i, OPEN_BRACE)
    ensures ParseValue(s, i, depth) ==
            if depth >= NESTING_LIMIT then Fail
            else if Is(s, Skip(s, i + 1), CLOSE_BRACE) then Got(JObject(NoMember), Skip(s, i + 1) + 1)
            else
              var g := ParseMembers(s, i + 1, depth + 1);
              if g.Fail? then Fail else Got(JObject(g.value), g.at)
  {
    NoWord(s, i);
  }

  lemma OtherWord(s: seq<byte>, i: nat, word: seq<byte>, other: seq<byte>)
    requires Stands(s, i, other) && word != [] && other != [] && word[0] != other[0]
    ensures !Reads(s, i, word)
  {
    StandsAt(s, i, other, 0);
    if Reads(s, i, word) {
      StandsAt(s, i, word, 0);
    }
  }

  /** One turn of the loop of parse_array. */
  lemma ItemsStep(s: seq<byte>, at: nat, depth: nat)
    requires at < |s|
    ensures var v := ParseValue(s, Skip(s, at), depth);
            ParseItems(s, at, depth) ==
            if v.Fail? then Fail
            else if Is(s, Skip(s, v.at), COMMA) then
              var rest := ParseItems(s, Skip(s, v.at) + 1, depth);
              if rest.Fail? then Fail else Got(Item(v.value, rest.value), rest.at)
            else if Is(s, Skip(s, v.at), CLOSE_BRACKET) then Got(Item(v.value, NoItem), Skip(s, v.at) + 1)
            else Fail
  {
  }

  /** One turn of the loop of parse_object, once there is a name and a colon. */
  lemma MembersStep(s: seq<byte>, at: nat, depth: nat, name: Got<seq<byte>>)
    requires at < |s| && name.Got? && name == ParseString(s, Skip(s, at)) && Is(s, Skip(s, name.at), COLON)
    ensures ParseMembers(s, at, depth) ==
            MemberTail(s, name.value, ParseValue(s, Skip(s, Skip(s, name.at) + 1), depth), depth)
  {
    hide ParseValue, ParseString, Solid, Skip;
  }

  /** What parse_object does once it has a name and a value. */
  ghost function MemberTail(s: seq<byte>, name: seq<byte>, v: Got<Json>, depth: nat): Got<Members> {
    if v.Fail? then Fail
    else if Is(s, Skip(s, v.at), COMMA) then
      var rest := ParseMembers(s, Skip(s, v.at) + 1, depth);
      if rest.Fail? then Fail else Got(Member(name, v.value, rest.value), rest.at)
    else if Is(s, Skip(s, v.at), CLOSE_BRACE) then Got(Member(name, v.value, NoMember), Skip(s, v.at) + 1)
    else Fail
  }

  // ---------------------------------------------------------------- the loops

  /** The items of `acc` in front of a list. */
  function Ahead(acc: seq<Json>, items: Items): Items {
    if acc == [] then items else Ahead(acc[..|acc| - 1], Item(acc[|acc| - 1], items))
  }

  function AheadMembers(acc: seq<(seq<byte>, Json)>, members: Members): Members {
    if acc == [] then members
    else AheadMembers(acc[..|acc| - 1], Member(acc[|acc| - 1].0, acc[|acc| - 1].1, members))
  }

  ghost function Attach(acc: seq<Json>, g: Got<Items>): Got<Items> {
    if g.Fail? then Fail else Got(Ahead(acc, g.value), g.at)
  }

  ghost function AttachMembers(acc: seq<(seq<byte>, Json)>, g: Got<Members>): Got<Members> {
    if g.Fail? then Fail else Got(AheadMembers(acc, g.value), g.at)
  }

  lemma AheadOne(acc: seq<Json>, v: Json, items: Items)
    ensures Ahead(acc + [v], items) == Ahead(acc, Item(v, items))
  {
    assert (acc + [v])[..|acc|] == acc;
  }

  lemma AheadOneMember(acc: seq<(seq<byte>, Json)>, name: seq<byte>, v: Json, members: Members)
    ensures AheadMembers(acc + [(name, v)], members) == AheadMembers(acc, Member(name, v, members))
  {
    assert (acc + [(name, v)])[..|acc|] == acc;
  }

  /** buffer_skip_whitespace */
  method SkipBlanks(s: seq<byte>, at: nat) returns (k: nat)
    ensures k == Skip(s, at)
  {
    k := at;
    if at >= |s| {
      return;
    }
    while k < |s| && s[k] <= 32
      invariant at <= k <= |s| && Solid(s, k) == Solid(s, at)
    {
      k := k + 1;
    }
    if k == |s| {
      k := k - 1;
    }
  }

  /** parse_value */
  method ParseValueLoop(s: seq<byte>, at: nat, depth: nat) returns (g: Got<Json>)
    ensures g == ParseValue(s, at, depth)
    decreases |s| - at, 1
  {
    hide ParseItems, ParseMembers, ParseString, Skip, Reads;
    if Reads(s, at, NULL_TEXT) {
      return Got(JNull, at + 4);
    }
    if Reads(s, at, FALSE_TEXT) {
      return Got(JFalse, at + 5);
    }
    if Reads(s, at, TRUE_TEXT) {
      return Got(JTrue, at + 4);
    }
    g := Fail;
    if Is(s, at, QUOTE) {
      var t := ParseStringLoop(s, at);
      if t.Got? {
        g := Got(JString(t.value), t.at);
      }
    } else if Is(s, at, OPEN_BRACKET) && depth < NESTING_LIMIT {
      var k := SkipBlanks(s, at + 1);
      if Is(s, k, CLOSE_BRACKET) {
        return Got(JArray(NoItem), k + 1);
      }
      var items := ParseArrayLoop(s, at + 1, depth + 1);
      if items.Got? {
        g := Got(JArray(items.value), items.at);
      }
    } else if Is(s, at, OPEN_BRACE) && depth < NESTING_LIMIT {
      var k := SkipBlanks(s, at + 1);
      if Is(s, k, CLOSE_BRACE) {
        return Got(JObject(NoMember), k + 1);
      }
      var members := ParseObjectLoop(s, at + 1, depth + 1);
      if members.Got? {
        g := Got(JObject(members.value), members.at);
      }
    }
  }

  /** The loop of parse_array, which appends to its list item by item. */
  method ParseArrayLoop(s: seq<byte>, at: nat, depth: nat) returns (g: Got<Items>)
    ensures g == ParseItems(s, at, depth)
    decreases |s| - at, 2
  {
    hide ParseValue, ParseItems, Skip, Ahead;
    var acc, cur := [], at;
    AttachNothing(ParseItems(s, at, depth));
    while cur < |s|
      invariant at <= cur && ParseItems(s, at, depth) == Attach(acc, ParseItems(s, cur, depth))
      decreases |s| - cur
    {
      ItemsStep(s, cur, depth);
      var k := SkipBlanks(s, cur);
      var v := ParseValueLoop(s, k, depth);
      if v.Fail? {
        return Fail;
      }
      var c := SkipBlanks(s, v.at);
      if !Is(s, c, COMMA) {
        if !Is(s, c, CLOSE_BRACKET) {
          return Fail;
        }
        AheadOne(acc, v.value, NoItem);
        return Got(Ahead(acc + [v.value], NoItem), c + 1);
      }
      var rest := ParseItems(s, c + 1, depth);
      if rest.Got? {
        AheadOne(acc, v.value, rest.value);
      }
      acc, cur := acc + [v.value], c + 1;
    }
    PastEnd(s, cur, depth);
    g := Fail;
  }

  lemma AttachNothing(g: Got<Items>)
    ensures Attach([], g) == g
  {
  }

  lemma AttachNoMembers(g: Got<Members>)
    ensures AttachMembers([], g) == g
  {
  }

  lemma PastEnd(s: seq<byte>, at: nat, depth: nat)
    requires at >= |s|
    ensures ParseItems(s, at, depth).Fail? && ParseMembers(s, at, depth).Fail?
  {
  }

  /** The loop of parse_object. */
  method ParseObjectLoop(s: seq<byte>, at: nat, depth: nat) returns (g: Got<Members>)
    ensures g == ParseMembers(s, at, depth)
    decreases |s| - at, 2
  {
    hide ParseValue, ParseMembers, ParseString, Skip, AheadMembers;
    var acc, cur := [], at;
    AttachNoMembers(ParseMembers(s, at, depth));
    while cur < |s|
      invariant at <= cur && ParseMembers(s, at, depth) == AttachMembers(acc, ParseMembers(s, cur, depth))
      decreases |s| - cur
    {
      var k := SkipBlanks(s, cur);
      var name := ParseStringLoop(s, k);
      NamelessFails(s, cur, depth);
      if name.Fail? {
        return Fail;
      }
      var colon := SkipBlanks(s, name.at);
      if !Is(s, colon, COLON) {
        return Fail;
      }
      MembersStep(s, cur, depth, name);
      k := SkipBlanks(s, colon + 1);
      var v := ParseValueLoop(s, k, depth);
      if v.Fail? {
        return Fail;
      }
      var c := SkipBlanks(s, v.at);
      if !Is(s, c, COMMA) {
        if !Is(s, c, CLOSE_BRACE) {
          return Fail;
        }
        AheadOneMember(acc, name.value, v.value, NoMember);
        return Got(AheadMembers(acc + [(name.value, v.value)], NoMember), c + 1);
      }
      var rest := ParseMembers(s, c + 1, depth);
      if rest.Got? {
        AheadOneMember(acc, name.value, v.value, rest.value);
      }
      acc, cur := acc + [(name.value, v.value)], c + 1;
    }
    PastEnd(s, cur, depth);
    g := Fail;
  }

  lemma NamelessFails(s: seq<byte>, at: nat, depth: nat)
    requires at < |s|
    ensures var name := ParseString(s, Skip(s, at));
            name.Fail? || !Is(s, Skip(s, name.at), COLON) ==> ParseMembers(s, at, depth).Fail?
  {
  }
}
