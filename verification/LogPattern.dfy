/** The pattern of a log formatter (sylar/log.cpp): a parser, the grammar it accepts, and a printer it inverts. */
module LogPattern {

  import opened Wrappers

  const DEFAULT_DATE := "%Y-%m-%d %H:%M:%S"
  const DEFAULT_PATTERN := "%d{%Y-%m-%d %H:%M:%S} [%p][%c] thread:%t %N fiber:%F %f:%l%T%m%n"

  // A formatter item: text, the date in some format, or one of the other fields.
  datatype Item = Literal(text: string) | Date(format: string) | Field(kind: char)

  predicate IsLegalItem(c: char) {
    || c == 'm' || c == 'p' || c == 'r' || c == 'c' || c == 't' || c == 'F'
    || c == 'f' || c == 'N' || c == 'd' || c == 'l' || c == 'n' || c == 'T'
  }

  // ---------------------------------------------------------------- the grammar

  // A plain character, "%%", or "%k" with or without a group in braces.
  datatype Token = Plain(c: char) | Percent | Spec(kind: char, group: Option<string>)

  function Render(t: Token): string {
    match t
    case Plain(c) => [c]
    case Percent => "%%"
    case Spec(k, None) => ['%', k]
    case Spec(k, Some(g)) => ['%', k, '{'] + g + ['}']
  }

  predicate TokenOk(t: Token) {
    match t
    case Plain(c) => c != '%'
    case Percent => true
    case Spec(k, g) => IsLegalItem(k) && (g.Some? ==> '}' !in g.value)
  }

  function RenderAll(ts: seq<Token>): string {
    if ts == [] then "" else Render(ts[0]) + RenderAll(ts[1..])
  }

  // A field without a group is not followed by an opening brace.
  predicate Grammatical(ts: seq<Token>) {
    ts != [] ==>
      && TokenOk(ts[0])
      && (ts[0].Spec? && ts[0].group.None? && |ts| > 1 ==> ts[1] != Plain('{'))
      && Grammatical(ts[1..])
  }

  // Where the first closing brace is, or the length.
  function Closing(s: string): (j: nat)
    ensures j <= |s| && (forall i | 0 <= i < j :: s[i] != '}') && (j < |s| ==> s[j] == '}')
  {
    if s == [] || s[0] == '}' then 0 else 1 + Closing(s[1..])
  }

  // The first token of a pattern, with its length; None if there is none.
  function First(s: string): Option<(Token, nat)>
    requires s != []
  {
    if s[0] != '%' then Some((Plain(s[0]), 1))
    else if |s| > 1 && s[1] == '%' then Some((Percent, 2))
    else if |s| == 1 || !IsLegalItem(s[1]) then None
    else if |s| == 2 || s[2] != '{' then Some((Spec(s[1], None), 2))
    else
      var j := Closing(s[3..]);
      if j == |s[3..]| then None else Some((Spec(s[1], Some(s[3..3 + j])), j + 4))
  }

  lemma {:induction false} FirstRenders(s: string)
    requires s != []
    ensures First(s).Some? ==>
              && 0 < First(s).value.1 <= |s|
              && TokenOk(First(s).value.0) && Render(First(s).value.0) == s[..First(s).value.1]
  {
    if First(s).Some? {
      var (t, n) := First(s).value;
      if t.Spec? && t.group.Some? {
        GroupRenders(s, n - 4);
      } else if t.Plain? {
        assert s[..1] == [s[0]];
      } else {
        assert s[..2] == [s[0], s[1]];
      }
    }
  }

  lemma {:induction false} GroupRenders(s: string, j: nat)
    requires j + 4 <= |s| && s[0] == '%' && s[2] == '{' && s[3 + j] == '}'
    ensures s[..j + 4] == ['%', s[1], '{'] + s[3..3 + j] + ['}']
  {
    assert s[..3] == ['%', s[1], '{'];
    assert s[..3 + j] == s[..3] + s[3..3 + j];
    assert s[..j + 4] == s[..3 + j] + [s[3 + j]];
  }

  function Lex(s: string): Option<seq<Token>>
    decreases |s|
  {
    if s == [] then Some([])
    else
      FirstRenders(s);
      match First(s)
      case None => None
      case Some((t, n)) =>
        match Lex(s[n..])
        case None => None
        case Some(ts) => Some([t] + ts)
  }

  // ---------------------------------------------------------------- items

  function Flush(normal: string): seq<Item> {
    if normal == "" then [] else [Literal(normal)]
  }

  function ItemOf(kind: char, group: Option<string>): Item {
    if kind != 'd' then Field(kind)
    else if group.Some? && group.value != "" then Date(group.value)
    else Date(DEFAULT_DATE)
  }

  // The items of the tokens, when `normal` is the text before them.
  function ItemsOf(ts: seq<Token>, normal: string): seq<Item>
    decreases |ts|
  {
    if ts == [] then Flush(normal)
    else
      match ts[0]
      case Plain(c) => ItemsOf(ts[1..], normal + [c])
      case Percent => ItemsOf(ts[1..], normal + "%")
      case Spec(k, g) => Flush(normal) + [ItemOf(k, g)] + ItemsOf(ts[1..], "")
  }

  function Parse(s: string, normal: string): Option<seq<Item>> {
    match Lex(s)
    case None => None
    case Some(ts) => Some(ItemsOf(ts, normal))
  }

  function Before(items: seq<Item>, r: Option<seq<Item>>): Option<seq<Item>> {
    match r
    case None => None
    case Some(more) => Some(items + more)
  }

  // What one token does to a parse.
  lemma ParseToken(s: string, normal: string, t: Token, n: nat)
    requires s != [] && First(s) == Some((t, n))
    ensures 0 < n <= |s|
    ensures Parse(s, normal) ==
            match t
            case Plain(c) => Parse(s[n..], normal + [c])
            case Percent => Parse(s[n..], normal + "%")
            case Spec(k, g) => Before(Flush(normal) + [ItemOf(k, g)], Parse(s[n..], ""))
  {
    FirstRenders(s);
    match Lex(s[n..])
    case None =>
    case Some(ts) =>
      assert ([t] + ts)[1..] == ts;
  }

  // ---------------------------------------------------------------- the class

  class LogFormatter {
    var pattern: string
    var items: seq<Item>
    var legal: bool

    constructor (p: string)
      ensures var q := if p == "" then DEFAULT_PATTERN else p;
              match Parse(q, "")
              case Some(all) => legal && items == all && pattern == q
              case None => !legal && items == [] && pattern == ""
    {
      pattern, items, legal := if p == "" then DEFAULT_PATTERN else p, [], false;
      new;
      legal := InitItems();
      if !legal {
        pattern := "";
      }
    }

    // The group behind a field, if `idx` is where one would open: its text, and the index of the
    // last character read. `ok` is false if the group does not close.
    method ReadGroup(at: nat) returns (ok: bool, group: Option<string>, idx: nat)
      requires at < |pattern|
      ensures at <= idx
      ensures at + 1 == |pattern| || pattern[at + 1] != '{' ==> ok && group == None && idx == at
      ensures at + 1 < |pattern| && pattern[at + 1] == '{' ==>
                var j := Closing(pattern[at + 2..]);
                if j < |pattern[at + 2..]| then ok && group == Some(pattern[at + 2..at + 2 + j]) && idx == at + 2 + j
                else !ok
    {
      idx, group, ok := at, None, true;
      if idx + 1 < |pattern| && pattern[idx + 1] == '{' {
        var text := "";
        idx := idx + 2;
        while idx < |pattern| && pattern[idx] != '}'
          invariant at + 2 <= idx <= |pattern| && text == pattern[at + 2..idx]
          invariant forall i | at + 2 <= i < idx :: pattern[i] != '}'
        {
          text := text + [pattern[idx]];
          idx := idx + 1;
        }
        ClosingAt(pattern[at + 2..], idx - at - 2);
        ok, group := idx < |pattern|, Some(text);
      }
    }

    // The branch for a field, with `at` on its '%': the token there and the index of its last
    // character; None if the pattern is not legal.
    method TakeField(at: nat) returns (token: Option<Token>, idx: nat)
      requires at < |pattern| && pattern[at] == '%' && (at + 1 < |pattern| ==> pattern[at + 1] != '%')
      ensures token.None? ==> First(pattern[at..]).None?
      ensures token.Some? ==> token.value.Spec? && idx > at && First(pattern[at..]) == Some((token.value, idx + 1 - at))
    {
      idx := at + 1;
      if idx >= |pattern| || !IsLegalItem(pattern[idx]) {
        assert |pattern[at..]| > 1 ==> pattern[at..][1] == pattern[idx];
        return None, idx;
      }
      var kind := pattern[idx];
      var closed, group;
      closed, group, idx := ReadGroup(idx);
      GroupIs(pattern, at);
      token := if closed then Some(Spec(kind, group)) else None;
    }

    // init_items
    method InitItems() returns (ok: bool)
      requires items == []
      modifies this`items
      ensures match Parse(pattern, "")
              case Some(all) => ok && items == all
              case None => !ok && items == []
    {
      var normal, idx: nat := "", 0;
      ghost var r := Parse(pattern, "");
      AtStart(pattern);
      while idx < |pattern|
        invariant At(r, pattern, items, idx, normal)
        decreases |pattern| - idx
      {
        var legal;
        legal, idx, normal := TakeToken(r, idx, normal);
        if !legal {
          items := [];
          return false;
        }
      }
      AtEnd(r, pattern, items, normal);
      items := items + Flush(normal);
      ok := true;
    }

    // One round of the loop, with the text gathered so far; `r` is what the loop comes to.
    method TakeToken(ghost r: Option<seq<Item>>, at: nat, text: string) returns (legal: bool, idx: nat, normal: string)
      requires at < |pattern| && At(r, pattern, items, at, text)
      modifies this`items
      ensures legal ==> idx > at && At(r, pattern, items, idx, normal)
      ensures !legal ==> r.None?
    {
      legal := true;
      if pattern[at] != '%' || (at + 1 < |pattern| && pattern[at + 1] == '%') {
        idx, normal := TakeText(r, at, text);
      } else {
        legal, idx := TakeSpec(r, at, text);
        normal := "";
      }
      idx := idx + 1;
    }

    // The round for a character of text, or for a per cent sign that is written twice.
    method TakeText(ghost r: Option<seq<Item>>, at: nat, text: string) returns (idx: nat, normal: string)
      requires at < |pattern| && At(r, pattern, items, at, text)
      requires pattern[at] != '%' || (at + 1 < |pattern| && pattern[at + 1] == '%')
      ensures idx >= at && At(r, pattern, items, idx + 1, normal)
    {
      idx := at;
      if pattern[at] != '%' {
        AdvancePlain(r, pattern, items, at, text);
        normal := text + [pattern[at]];
      } else {
        AdvancePercent(r, pattern, items, at, text);
        normal := text + "%";
        idx := idx + 1;
      }
    }

    // The round for a field: its item, after one for the text before it. `idx` is its last character.
    method TakeSpec(ghost r: Option<seq<Item>>, at: nat, text: string) returns (legal: bool, idx: nat)
      requires at < |pattern| && At(r, pattern, items, at, text)
      requires pattern[at] == '%' && (at + 1 < |pattern| ==> pattern[at + 1] != '%')
      modifies this`items
      ensures legal ==> idx > at && At(r, pattern, items, idx + 1, "")
      ensures !legal ==> r.None?
    {
      var token;
      token, idx := TakeField(at);
      if token.None? {
        Stuck(r, pattern, items, at, text);
        return false, idx;
      }
      AdvanceSpec(r, pattern, items, at, text, token.value, idx + 1);
      items := items + Flush(text) + [ItemOf(token.value.kind, token.value.group)];
      legal := true;
    }
  }

  // The loop is at `idx`, with these items made and this text gathered; it comes to `r`.
  ghost predicate At(r: Option<seq<Item>>, p: string, items: seq<Item>, idx: nat, normal: string) {
    idx <= |p| && r == Before(items, Parse(p[idx..], normal))
  }

  lemma AdvancePlain(r: Option<seq<Item>>, p: string, items: seq<Item>, at: nat, normal: string)
    requires at < |p| && At(r, p, items, at, normal) && p[at] != '%'
    ensures At(r, p, items, at + 1, normal + [p[at]])
  {
    assert p[at..][0] == p[at];
    Advance(r, p, items, at, normal, Plain(p[at]), 1);
  }

  lemma AdvancePercent(r: Option<seq<Item>>, p: string, items: seq<Item>, at: nat, normal: string)
    requires at + 1 < |p| && At(r, p, items, at, normal) && p[at] == p[at + 1] == '%'
    ensures At(r, p, items, at + 2, normal + "%")
  {
    assert p[at..][0] == p[at] && p[at..][1] == p[at + 1];
    Advance(r, p, items, at, normal, Percent, 2);
  }

  lemma AdvanceSpec(r: Option<seq<Item>>, p: string, items: seq<Item>, at: nat, normal: string, t: Token, next: nat)
    requires at < |p| && at <= next && At(r, p, items, at, normal) && t.Spec? && First(p[at..]) == Some((t, next - at))
    ensures At(r, p, items + Flush(normal) + [ItemOf(t.kind, t.group)], next, "")
  {
    Advance(r, p, items, at, normal, t, next - at);
  }

  lemma AtStart(p: string)
    ensures At(Parse(p, ""), p, [], 0, "")
  {
    assert p[0..] == p;
    if Parse(p, "").Some? {
      assert [] + Parse(p, "").value == Parse(p, "").value;
    }
  }

  lemma AtEnd(r: Option<seq<Item>>, p: string, items: seq<Item>, normal: string)
    requires At(r, p, items, |p|, normal)
    ensures r == Some(items + Flush(normal))
  {
    assert p[|p|..] == "";
  }

  lemma Stuck(r: Option<seq<Item>>, p: string, items: seq<Item>, idx: nat, normal: string)
    requires idx < |p| && At(r, p, items, idx, normal) && First(p[idx..]).None?
    ensures r.None?
  {
  }

  lemma ClosingAt(s: string, j: nat)
    requires j <= |s| && (forall i | 0 <= i < j :: s[i] != '}') && (j < |s| ==> s[j] == '}')
    ensures Closing(s) == j
  {
  }

  // A round of the loop as a step of the parse.
  lemma Advance(r: Option<seq<Item>>, p: string, items: seq<Item>, at: nat, normal: string, t: Token, n: nat)
    requires at < |p| && At(r, p, items, at, normal) && First(p[at..]) == Some((t, n))
    ensures t.Plain? ==> At(r, p, items, at + n, normal + [t.c])
    ensures t.Percent? ==> At(r, p, items, at + n, normal + "%")
    ensures t.Spec? ==> At(r, p, items + Flush(normal) + [ItemOf(t.kind, t.group)], at + n, "")
  {
    ParseToken(p[at..], normal, t, n);
    assert p[at..][n..] == p[at + n..];
    if t.Spec? && Parse(p[at + n..], "").Some? {
      var more := Parse(p[at + n..], "").value;
      assert items + ((Flush(normal) + [ItemOf(t.kind, t.group)]) + more) == (items + Flush(normal) + [ItemOf(t.kind, t.group)]) + more;
    }
  }

  // The token at a '%' that starts a field, in terms of the whole pattern.
  lemma GroupIs(p: string, at: nat)
    requires at + 1 < |p| && p[at] == '%' && p[at + 1] != '%' && IsLegalItem(p[at + 1])
    ensures at + 2 == |p| || p[at + 2] != '{' ==> First(p[at..]) == Some((Spec(p[at + 1], None), 2))
    ensures at + 2 < |p| && p[at + 2] == '{' ==>
              var j := Closing(p[at + 3..]);
              First(p[at..]) == if j == |p[at + 3..]| then None else Some((Spec(p[at + 1], Some(p[at + 3..at + 3 + j])), j + 4))
  {
    var s := p[at..];
    assert s[0] == '%' && s[1] == p[at + 1];
    if at + 2 < |p| {
      assert s[2] == p[at + 2] && s[3..] == p[at + 3..];
      var j := Closing(p[at + 3..]);
      assert s[3..3 + j] == p[at + 3..at + 3 + j];
    }
  }

  // ---------------------------------------------------------------- what is accepted

  // A token in front of more text is read back, unless the text turns it into a longer one.
  lemma FirstOfRendered(t: Token, rest: string)
    requires TokenOk(t) && (t.Spec? && t.group.None? && rest != "" ==> rest[0] != '{')
    ensures First(Render(t) + rest) == Some((t, |Render(t)|))
  {
    var s := Render(t) + rest;
    if t.Spec? {
      assert s[0] == '%' && s[1] == t.kind != '%';
      if t.group.Some? {
        FirstOfGroup(t.kind, t.group.value, rest);
      } else if rest != "" {
        assert s[2] == rest[0];
      }
    }
  }

  lemma FirstOfGroup(k: char, g: string, rest: string)
    requires IsLegalItem(k) && '}' !in g
    ensures var s := ['%', k, '{'] + g + ['}'] + rest; First(s) == Some((Spec(k, Some(g)), |g| + 4))
  {
    var s := ['%', k, '{'] + g + ['}'] + rest;
    assert s == ['%', k, '{'] + (g + ['}'] + rest);
    assert s[3..] == g + ['}'] + rest;
    ClosingAt(s[3..], |g|);
    assert s[3..3 + |g|] == g;
  }

  lemma {:induction false} RenderedStart(ts: seq<Token>)
    requires Grammatical(ts) && ts != []
    ensures RenderAll(ts) != "" && (RenderAll(ts)[0] == '{' <==> ts[0] == Plain('{'))
  {
  }

  // The tokens of a grammatical text are found again.
  lemma {:induction false} LexRendered(ts: seq<Token>)
    requires Grammatical(ts)
    ensures Lex(RenderAll(ts)) == Some(ts)
  {
    if ts != [] {
      LexRendered(ts[1..]);
      LexHead(ts);
    }
  }

  lemma {:induction false} LexHead(ts: seq<Token>)
    requires Grammatical(ts) && ts != [] && Lex(RenderAll(ts[1..])) == Some(ts[1..])
    ensures Lex(RenderAll(ts)) == Some(ts)
  {
    var rest := RenderAll(ts[1..]);
    FollowedBy(ts);
    assert RenderAll(ts) == Render(ts[0]) + rest;
    assert [ts[0]] + ts[1..] == ts;
    LexStep(ts[0], rest, ts[1..]);
  }

  lemma {:induction false} FollowedBy(ts: seq<Token>)
    requires Grammatical(ts) && ts != []
    ensures TokenOk(ts[0])
    ensures ts[0].Spec? && ts[0].group.None? && RenderAll(ts[1..]) != "" ==> RenderAll(ts[1..])[0] != '{'
  {
    if |ts| > 1 {
      RenderedStart(ts[1..]);
      assert ts[1..][0] == ts[1];
    } else {
      assert ts[1..] == [];
    }
  }

  lemma {:induction false} LexStep(t: Token, rest: string, ts: seq<Token>)
    requires TokenOk(t) && (t.Spec? && t.group.None? && rest != "" ==> rest[0] != '{') && Lex(rest) == Some(ts)
    ensures Lex(Render(t) + rest) == Some([t] + ts)
  {
    var s, n := Render(t) + rest, |Render(t)|;
    FirstOfRendered(t, rest);
    FirstRenders(s);
    assert s[n..] == rest;
  }

  lemma {:induction false} LexRenders(s: string)
    ensures Lex(s).Some? ==> Grammatical(Lex(s).value) && RenderAll(Lex(s).value) == s
    decreases |s|
  {
    if s != [] && Lex(s).Some? {
      FirstRenders(s);
      LexRenders(s[First(s).value.1..]);
      LexCons(s);
    }
  }

  lemma {:induction false} LexCons(s: string)
    requires s != [] && First(s).Some? && 0 < First(s).value.1 <= |s|
    requires var r := Lex(s[First(s).value.1..]);
             r.Some? && Grammatical(r.value) && RenderAll(r.value) == s[First(s).value.1..]
    ensures Lex(s).Some? && Grammatical(Lex(s).value) && RenderAll(Lex(s).value) == s
  {
    FirstRenders(s);
    var (t, n) := First(s).value;
    if t.Spec? && t.group.None? {
      BareField(s);
    }
    RenderCons(s, t, n, Lex(s[n..]).value);
  }

  lemma {:induction false} BareField(s: string)
    requires s != [] && First(s).Some? && First(s).value.0.Spec? && First(s).value.0.group.None?
    ensures First(s).value.1 == 2 && (|s| > 2 ==> s[2] != '{')
  {
  }

  lemma {:induction false} RenderCons(s: string, t: Token, n: nat, ts: seq<Token>)
    requires n <= |s| && TokenOk(t) && Render(t) == s[..n] && Grammatical(ts) && RenderAll(ts) == s[n..]
    requires t.Spec? && t.group.None? ==> n == |s| || s[n] != '{'
    ensures Grammatical([t] + ts) && RenderAll([t] + ts) == s
  {
    assert ([t] + ts)[1..] == ts && s == s[..n] + s[n..];
    if ts != [] {
      RenderedStart(ts);
      assert s[n..][0] == s[n];
    }
  }

  // A pattern is accepted exactly when it is in the grammar.
  lemma Accepted(s: string)
    ensures Parse(s, "").Some? <==> exists ts :: Grammatical(ts) && RenderAll(ts) == s
  {
    LexRenders(s);
    if ts :| Grammatical(ts) && RenderAll(ts) == s {
      LexRendered(ts);
    }
  }

  // ---------------------------------------------------------------- single fields

  lemma LegalItems(c: char)
    ensures IsLegalItem(c) <==> c in "mprctFfNdlnT"
  {
  }

  // A field by itself: the date in the usual format, every other field as what it is, and anything
  // else is illegal.
  lemma {:induction false} SingleField(k: char)
    requires k != '%'
    ensures Parse(['%', k], "") ==
              if k !in "mprctFfNdlnT" then None else Some([if k == 'd' then Date("%Y-%m-%d %H:%M:%S") else Field(k)])
  {
    var s := ['%', k];
    LegalItems(k);
    if IsLegalItem(k) {
      ParseToken(s, "", Spec(k, None), 2);
      assert s[2..] == "" && Parse("", "") == Some([]);
      assert Flush("") + [ItemOf(k, None)] + [] == [ItemOf(k, None)];
    }
  }

  // Text before a field is kept as it is.
  lemma {:induction false} ParseText(text: string, s: string, normal: string)
    requires '%' !in text
    ensures Parse(text + s, normal) == Parse(s, normal + text)
    decreases |text|
  {
    if text == "" {
      assert text + s == s && normal + text == normal;
    } else {
      assert (text + s)[1..] == text[1..] + s;
      ParseToken(text + s, normal, Plain(text[0]), 1);
      ParseText(text[1..], s, normal + [text[0]]);
      TextCons(normal, text);
    }
  }

  // Text, a field without a group, and what follows.
  lemma {:induction false} BareAfter(text: string, k: char, s: string, more: seq<Item>)
    requires '%' !in text && k in "mprctFfNlnT" && (s != "" ==> s[0] != '{') && Parse(s, "") == Some(more)
    ensures Parse(text + (['%', k] + s), "") == Some(Flush(text) + [Field(k)] + more)
  {
    LegalItems(k);
    FirstOfRendered(Spec(k, None), s);
    assert (['%', k] + s)[2..] == s;
    ParseToken(['%', k] + s, text, Spec(k, None), 2);
    ParseText(text, ['%', k] + s, "");
    assert "" + text == text;
  }

  // ---------------------------------------------------------------- the printer

  predicate ItemOk(it: Item) {
    match it
    case Literal(text) => text != ""
    case Date(format) => format != "" && '}' !in format
    case Field(kind) => IsLegalItem(kind) && kind != 'd'
  }

  // No empty or adjacent literals.
  predicate Normal(items: seq<Item>) {
    items != [] ==>
      && ItemOk(items[0]) && Normal(items[1..])
      && (items[0].Literal? && |items| > 1 ==> !items[1].Literal?)
  }

  function Escape(text: string): seq<Token> {
    if text == "" then [] else [Escaped(text[0])] + Escape(text[1..])
  }

  function Escaped(c: char): Token {
    if c == '%' then Percent else Plain(c)
  }

  // "%%" for a per cent sign, and a group in braces after every field.
  function Printed(it: Item): seq<Token> {
    match it
    case Literal(text) => Escape(text)
    case Date(format) => [Spec('d', Some(format))]
    case Field(kind) => [Spec(kind, Some(""))]
  }

  function PrintTokens(items: seq<Item>): seq<Token> {
    if items == [] then [] else Printed(items[0]) + PrintTokens(items[1..])
  }

  function Print(items: seq<Item>): string {
    RenderAll(PrintTokens(items))
  }

  lemma {:induction false} EscapedText(text: string, normal: string, ts: seq<Token>)
    requires Grammatical(ts)
    ensures Grammatical(Escape(text) + ts) && ItemsOf(Escape(text) + ts, normal) == ItemsOf(ts, normal + text)
    decreases |text|
  {
    if text == "" {
      assert Escape(text) + ts == ts && normal + text == normal;
    } else {
      EscapedText(text[1..], normal + [text[0]], ts);
      OneEscape(text[0], normal, Escape(text[1..]) + ts);
      EscapeCons(text, ts);
      TextCons(normal, text);
    }
  }

  lemma TextCons(normal: string, text: string)
    requires text != ""
    ensures (normal + [text[0]]) + text[1..] == normal + text
  {
  }

  lemma {:induction false} EscapeCons(text: string, ts: seq<Token>)
    requires text != ""
    ensures Escape(text) + ts == [Escaped(text[0])] + (Escape(text[1..]) + ts)
  {
  }

  lemma {:induction false} OneEscape(c: char, normal: string, more: seq<Token>)
    requires Grammatical(more)
    ensures Grammatical([Escaped(c)] + more) && ItemsOf([Escaped(c)] + more, normal) == ItemsOf(more, normal + [c])
  {
    assert ([Escaped(c)] + more)[1..] == more;
  }

  // Printed items come back, with the text before them kept apart unless a literal comes first.
  lemma {:induction false} PrintedItems(items: seq<Item>, normal: string)
    requires Normal(items) && (items != [] && items[0].Literal? ==> normal == "")
    ensures Grammatical(PrintTokens(items)) && ItemsOf(PrintTokens(items), normal) == Flush(normal) + items
    decreases |items|
  {
    if items != [] {
      if items[0].Literal? {
        PrintedItems(items[1..], items[0].text);
        PrintedLiteral(items[0].text, PrintTokens(items[1..]), items[1..]);
      } else {
        PrintedItems(items[1..], "");
        NothingFirst(items[1..]);
        PrintedField(items[0], PrintTokens(items[1..]), items[1..], normal);
      }
      Whole(items, normal);
    } else {
      NothingLast(normal);
    }
  }

  lemma NothingFirst(items: seq<Item>)
    ensures Flush("") + items == items
  {
  }

  lemma NothingLast(normal: string)
    ensures Flush(normal) + [] == Flush(normal)
  {
  }

  lemma Whole(items: seq<Item>, normal: string)
    requires items != []
    ensures Flush(normal) + [items[0]] + items[1..] == Flush(normal) + items
  {
    assert items == [items[0]] + items[1..];
  }

  lemma {:induction false} PrintedLiteral(text: string, ts: seq<Token>, more: seq<Item>)
    requires text != "" && Grammatical(ts) && ItemsOf(ts, text) == Flush(text) + more
    ensures Grammatical(Printed(Literal(text)) + ts)
    ensures ItemsOf(Printed(Literal(text)) + ts, "") == Flush("") + [Literal(text)] + more
  {
    EscapedText(text, "", ts);
    assert "" + text == text;
    NothingFirst([Literal(text)]);
  }

  lemma {:induction false} PrintedField(it: Item, ts: seq<Token>, more: seq<Item>, normal: string)
    requires ItemOk(it) && !it.Literal? && Grammatical(ts) && ItemsOf(ts, "") == more
    ensures Grammatical(Printed(it) + ts) && ItemsOf(Printed(it) + ts, normal) == Flush(normal) + [it] + more
  {
    var t := if it.Date? then Spec('d', Some(it.format)) else Spec(it.kind, Some(""));
    assert Printed(it) == [t] && ([t] + ts)[1..] == ts && ItemOf(t.kind, t.group) == it;
  }

  // The parser inverts the printer.
  lemma PrintParse(items: seq<Item>)
    requires Normal(items)
    ensures Parse(Print(items), "") == Some(items)
  {
    PrintedItems(items, "");
    LexRendered(PrintTokens(items));
    assert Flush("") + items == items;
  }

  // And what it returns is such a list, so that every accepted pattern means the same as its print.
  lemma {:induction false} ParsedNormal(ts: seq<Token>, normal: string)
    requires Grammatical(ts)
    ensures Normal(ItemsOf(ts, normal))
    decreases |ts|
  {
    if ts != [] {
      match ts[0]
      case Plain(c) => ParsedNormal(ts[1..], normal + [c]);
      case Percent => ParsedNormal(ts[1..], normal + "%");
      case Spec(k, g) =>
        ParsedNormal(ts[1..], "");
        NormalFront(normal, ItemOf(k, g), ItemsOf(ts[1..], ""));
    } else if normal != "" {
      assert [Literal(normal)][1..] == [];
    }
  }

  lemma {:induction false} NormalFront(normal: string, it: Item, more: seq<Item>)
    requires Normal(more) && ItemOk(it) && !it.Literal?
    ensures Normal(Flush(normal) + [it] + more)
  {
    var tail := [it] + more;
    assert tail[1..] == more;
    if normal == "" {
      assert Flush(normal) + [it] + more == tail;
    } else {
      assert Flush(normal) + [it] + more == [Literal(normal)] + tail;
      assert ([Literal(normal)] + tail)[1..] == tail;
    }
  }

  lemma ParsePrint(s: string)
    requires Parse(s, "").Some?
    ensures Normal(Parse(s, "").value) && Parse(Print(Parse(s, "").value), "") == Parse(s, "")
  {
    LexRenders(s);
    ParsedNormal(Lex(s).value, "");
    PrintParse(Parse(s, "").value);
  }
}
