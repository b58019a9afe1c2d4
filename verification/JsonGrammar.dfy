/** The grammar the recogniser decides, and recursive descent over a stream of tokens: the
    two agree on every stream. */
module JsonGrammar {
  import opened JsonScanner
  import opened Wrappers

  /** A place in the token stream: a token, or the scanner ending the program. */
  datatype Symbol = Is(token: Token) | Abort

  // ----- the token stream of a text -----

  predicate Last(symbol: Symbol) {
    symbol == Abort || symbol == Is(EndOfInput) || symbol == Is(Identifier)
  }

  /** What repeated calls of the scanner give, up to the first that does not move on. */
  function Lex(chars: string, text: string, value: int): (s: seq<Symbol>)
    ensures Stream(s)
    decreases |chars|
  {
    Progress(chars, text, value);
    match Scan(chars, text, value)
    case Aborted => [Abort]
    case Lexeme(token, text', value', rest) =>
      if Last(Is(token)) then [Is(token)] else [Is(token)] + Lex(rest, text', value')
  }

  /** A stream ends with its only last symbol. */
  predicate Stream(s: seq<Symbol>) {
    s != [] && Last(s[|s| - 1]) && forall i :: 0 <= i < |s| - 1 ==> !Last(s[i])
  }

  /** A stream whose first symbol was recognised. */
  predicate Running(s: seq<Symbol>) {
    Stream(s) && s[0] != Abort
  }

  // ----- recursive descent -----

  /** A nonterminal is found and leaves a stream, is not there and consumes nothing, or the
      program ends. */
  datatype Outcome = Found(rest: seq<Symbol>) | Missing | Dead

  function Required(o: Outcome): Outcome {
    if o.Missing? then Dead else o
  }

  /** Going past the current token scans the next one. */
  function Match(token: Token, s: seq<Symbol>): (o: Outcome)
    requires Running(s)
    ensures o.Found? ==> Running(o.rest) && (|o.rest| < |s| || Last(Is(token)))
  {
    if s[0] != Is(token) then Missing
    else if |s| == 1 then Found(s)
    else if s[1] == Abort then Dead
    else Found(s[1..])
  }

  function ParseValue(s: seq<Symbol>): (o: Outcome)
    requires Running(s)
    ensures o.Found? ==> Running(o.rest) && |o.rest| < |s|
    decreases |s|, 1
  {
    match s[0].token
    case LeftBrace => ParseObject(s)
    case LeftBracket => ParseArray(s)
    case Integer => Match(Integer, s)
    case True => Match(True, s)
    case False => Match(False, s)
    case String => Match(String, s)
    case Null => Match(Null, s)
    case _ => Missing
  }

  function ParseObject(s: seq<Symbol>): (o: Outcome)
    requires Running(s) && s[0] == Is(LeftBrace)
    ensures o.Found? ==> Running(o.rest) && |o.rest| < |s|
    decreases |s|, 0
  {
    var brace := Match(LeftBrace, s);
    if brace.Dead? then Dead
    else
      var members := ParseMembers(brace.rest);
      if members.Dead? then Dead
      else Required(Match(RightBrace, if members.Missing? then brace.rest else members.rest))
  }

  function ParseArray(s: seq<Symbol>): (o: Outcome)
    requires Running(s) && s[0] == Is(LeftBracket)
    ensures o.Found? ==> Running(o.rest) && |o.rest| < |s|
    decreases |s|, 0
  {
    var bracket := Match(LeftBracket, s);
    if bracket.Dead? then Dead
    else
      var items := ParseItems(bracket.rest);
      if items.Dead? then Dead
      else Required(Match(RightBracket, if items.Missing? then bracket.rest else items.rest))
  }

  function ParseMember(s: seq<Symbol>): (o: Outcome)
    requires Running(s)
    ensures o.Found? ==> Running(o.rest) && |o.rest| < |s|
    decreases |s|, 2
  {
    var name := Match(String, s);
    if !name.Found? then name
    else
      var colon := Required(Match(Colon, name.rest));
      if !colon.Found? then colon else Required(ParseValue(colon.rest))
  }

  function ParseMembers(s: seq<Symbol>): (o: Outcome)
    requires Running(s)
    ensures o.Found? ==> Running(o.rest) && |o.rest| < |s|
    decreases |s|, 3
  {
    var first := ParseMember(s);
    if !first.Found? then first else MoreMembers(first.rest)
  }

  /** The loop over the members that follow a comma. */
  function MoreMembers(s: seq<Symbol>): (o: Outcome)
    requires Running(s)
    ensures !o.Missing? && (o.Found? ==> Running(o.rest) && |o.rest| <= |s|)
    decreases |s|, 0
  {
    var comma := Match(Comma, s);
    if comma.Missing? then Found(s)
    else if comma.Dead? then Dead
    else
      var next := Required(ParseMember(comma.rest));
      if next.Dead? then Dead else MoreMembers(next.rest)
  }

  function ParseItems(s: seq<Symbol>): (o: Outcome)
    requires Running(s)
    ensures o.Found? ==> Running(o.rest) && |o.rest| < |s|
    decreases |s|, 2
  {
    var first := ParseValue(s);
    if !first.Found? then first else MoreItems(first.rest)
  }

  function MoreItems(s: seq<Symbol>): (o: Outcome)
    requires Running(s)
    ensures !o.Missing? && (o.Found? ==> Running(o.rest) && |o.rest| <= |s|)
    decreases |s|, 0
  {
    var comma := Match(Comma, s);
    if comma.Missing? then Found(s)
    else if comma.Dead? then Dead
    else
      var next := Required(ParseValue(comma.rest));
      if next.Dead? then Dead else MoreItems(next.rest)
  }

  /** One value and the end of the input. */
  function ParseText(s: seq<Symbol>): (o: Outcome)
    requires Running(s)
  {
    var value := Required(ParseValue(s));
    if value.Dead? then Dead else Required(Match(EndOfInput, value.rest))
  }

  // ----- the grammar -----

  datatype Value =
    | Number
    | Text
    | Boolean(holds: bool)
    | Nothing
    | Object(members: Values)
    | Array(items: Values)

  datatype Values = Nil | Cons(head: Value, tail: Values)

  /** The tokens of a value. */
  function Words(v: Value): (s: seq<Symbol>)
    ensures s != []
    decreases v, 0
  {
    match v
    case Number => [Is(Integer)]
    case Text => [Is(String)]
    case Boolean(holds) => [Is(if holds then True else False)]
    case Nothing => [Is(Null)]
    case Object(members) => [Is(LeftBrace)] + MemberWords(members) + [Is(RightBrace)]
    case Array(items) => [Is(LeftBracket)] + ItemWords(items) + [Is(RightBracket)]
  }

  function MemberWords(members: Values): seq<Symbol>
    decreases members, 0
  {
    match members
    case Nil => []
    case Cons(value, more) => [Is(String), Is(Colon)] + Words(value) + MoreMemberWords(more)
  }

  function MoreMemberWords(members: Values): seq<Symbol>
    decreases members, 1
  {
    if members.Nil? then [] else [Is(Comma)] + MemberWords(members)
  }

  function ItemWords(items: Values): seq<Symbol>
    decreases items, 0
  {
    match items
    case Nil => []
    case Cons(value, more) => Words(value) + MoreItemWords(more)
  }

  function MoreItemWords(items: Values): seq<Symbol>
    decreases items, 1
  {
    if items.Nil? then [] else [Is(Comma)] + ItemWords(items)
  }

  lemma MatchSplits(token: Token, s: seq<Symbol>)
    requires Running(s) && Match(token, s).Found? && !Last(Is(token))
    ensures s == [Is(token)] + Match(token, s).rest
  {
  }

  lemma Enclosed(open: Symbol, inner: seq<Symbol>, close: Symbol, rest: seq<Symbol>)
    ensures [open] + (inner + ([close] + rest)) == [open] + inner + [close] + rest
  {
  }

  // ----- what is found is of the grammar -----

  lemma {:induction false} FoundIsValue(s: seq<Symbol>) returns (v: Value)
    requires Running(s) && ParseValue(s).Found?
    ensures s == Words(v) + ParseValue(s).rest
    decreases |s|, 1
  {
    hide ParseObject, ParseArray;
    match s[0].token {
      case LeftBrace => v := FoundIsObject(s);
      case LeftBracket => v := FoundIsArray(s);
      case Integer => v := Number;
      case True => v := Boolean(true);
      case False => v := Boolean(false);
      case String => v := Text;
      case Null => v := Nothing;
    }
  }

  lemma {:induction false} FoundIsObject(s: seq<Symbol>) returns (v: Value)
    requires Running(s) && s[0] == Is(LeftBrace) && ParseObject(s).Found?
    ensures s == Words(v) + ParseObject(s).rest
    decreases |s|, 0
  {
    hide ParseMembers, MemberWords, Stream;
    var inner := s[1..];
    var members := FoundAreMembers(inner);
    v := Object(members);
    var rest := if ParseMembers(inner).Found? then ParseMembers(inner).rest else inner;
    MatchSplits(RightBrace, rest);
    Enclosed(Is(LeftBrace), MemberWords(members), Is(RightBrace), ParseObject(s).rest);
  }

  lemma {:induction false} FoundIsArray(s: seq<Symbol>) returns (v: Value)
    requires Running(s) && s[0] == Is(LeftBracket) && ParseArray(s).Found?
    ensures s == Words(v) + ParseArray(s).rest
    decreases |s|, 0
  {
    hide ParseItems, ItemWords, Stream;
    var inner := s[1..];
    var items := FoundAreItems(inner);
    v := Array(items);
    var rest := if ParseItems(inner).Found? then ParseItems(inner).rest else inner;
    MatchSplits(RightBracket, rest);
    Enclosed(Is(LeftBracket), ItemWords(items), Is(RightBracket), ParseArray(s).rest);
  }

  lemma {:induction false} FoundAreMembers(s: seq<Symbol>) returns (members: Values)
    requires Running(s) && !ParseMembers(s).Dead?
    ensures s == MemberWords(members) + if ParseMembers(s).Found? then ParseMembers(s).rest else s
    ensures ParseMembers(s).Found? ==> members.Cons?
    decreases |s|, 3
  {
    hide ParseMember, MoreMembers;
    members := Nil;
    if ParseMembers(s).Found? {
      var value := FoundIsMember(s);
      var more := FoundAreMoreMembers(ParseMember(s).rest);
      members := Cons(value, more);
    }
  }

  lemma {:induction false} FoundIsMember(s: seq<Symbol>) returns (v: Value)
    requires Running(s) && ParseMember(s).Found?
    ensures s == [Is(String), Is(Colon)] + Words(v) + ParseMember(s).rest
    decreases |s|, 2
  {
    hide ParseValue, Words;
    v := FoundIsValue(s[2..]);
    assert s == [Is(String), Is(Colon)] + s[2..];
  }

  lemma {:induction false} FoundAreMoreMembers(s: seq<Symbol>) returns (members: Values)
    requires Running(s) && MoreMembers(s).Found?
    ensures s == MoreMemberWords(members) + MoreMembers(s).rest
    decreases |s|, 0
  {
    hide ParseMember, MemberWords;
    if s[0] == Is(Comma) {
      members := FoundAreMembers(s[1..]);
      assert s == [Is(Comma)] + s[1..];
    } else {
      members := Nil;
    }
  }

  lemma {:induction false} FoundAreItems(s: seq<Symbol>) returns (items: Values)
    requires Running(s) && !ParseItems(s).Dead?
    ensures s == ItemWords(items) + if ParseItems(s).Found? then ParseItems(s).rest else s
    ensures ParseItems(s).Found? ==> items.Cons?
    decreases |s|, 2
  {
    hide ParseValue, MoreItems;
    items := Nil;
    if ParseItems(s).Found? {
      var value := FoundIsValue(s);
      var more := FoundAreMoreItems(ParseValue(s).rest);
      items := Cons(value, more);
    }
  }

  lemma {:induction false} FoundAreMoreItems(s: seq<Symbol>) returns (items: Values)
    requires Running(s) && MoreItems(s).Found?
    ensures s == MoreItemWords(items) + MoreItems(s).rest
    decreases |s|, 0
  {
    hide ParseValue, ItemWords;
    if s[0] == Is(Comma) {
      items := FoundAreItems(s[1..]);
      assert s == [Is(Comma)] + s[1..];
    } else {
      items := Nil;
    }
  }

  // ----- what is of the grammar is found -----

  predicate Goes(rest: seq<Symbol>) {
    rest != [] && rest[0] != Abort
  }

  /** Going past the first symbol of a longer stream. */
  lemma MatchFirst(token: Token, s: seq<Symbol>, rest: seq<Symbol>)
    requires Running(s) && s == [Is(token)] + rest && Goes(rest)
    ensures Running(rest) && Match(token, s) == Found(rest)
  {
    assert s[1..] == rest;
    forall i | 0 <= i < |rest| - 1 ensures !Last(rest[i]) { assert rest[i] == s[i + 1]; }
  }

  lemma {:induction false} ValueIsFound(v: Value, s: seq<Symbol>, rest: seq<Symbol>)
    requires Running(s) && s == Words(v) + rest && Goes(rest)
    ensures ParseValue(s) == Found(rest)
    decreases v, 0
  {
    hide ParseObject, ParseArray;
    match v
    case Object(members) => ObjectIsFound(members, s, rest);
    case Array(items) => ArrayIsFound(items, s, rest);
    case _ => MatchFirst(Words(v)[0].token, s, rest);
  }

  lemma {:induction false} ObjectIsFound(members: Values, s: seq<Symbol>, rest: seq<Symbol>)
    requires Running(s) && s == Words(Object(members)) + rest && Goes(rest)
    ensures s[0] == Is(LeftBrace) && ParseObject(s) == Found(rest)
    decreases members, 2
  {
    hide ParseMembers;
    var after := [Is(RightBrace)] + rest;
    Enclosed(Is(LeftBrace), MemberWords(members), Is(RightBrace), rest);
    assert s[0] == Is(LeftBrace) && s[1..] == MemberWords(members) + after;
    NextGoes(s);
    MatchFirst(LeftBrace, s, s[1..]);
    MembersAreFound(members, s[1..], after);
    MatchFirst(RightBrace, after, rest);
  }

  lemma {:induction false} ArrayIsFound(items: Values, s: seq<Symbol>, rest: seq<Symbol>)
    requires Running(s) && s == Words(Array(items)) + rest && Goes(rest)
    ensures s[0] == Is(LeftBracket) && ParseArray(s) == Found(rest)
    decreases items, 2
  {
    hide ParseItems;
    var after := [Is(RightBracket)] + rest;
    Enclosed(Is(LeftBracket), ItemWords(items), Is(RightBracket), rest);
    assert s[0] == Is(LeftBracket) && s[1..] == ItemWords(items) + after;
    NextGoes(s);
    MatchFirst(LeftBracket, s, s[1..]);
    ItemsAreFound(items, s[1..], after);
    MatchFirst(RightBracket, after, rest);
  }

  /** Nothing but the last symbol ends the program. */
  lemma NextGoes(s: seq<Symbol>)
    requires Running(s) && |s| > 2
    ensures Goes(s[1..])
  {
  }

  lemma {:induction false} MembersAreFound(members: Values, s: seq<Symbol>, rest: seq<Symbol>)
    requires Running(s) && s == MemberWords(members) + rest && |rest| > 1 && rest[0] == Is(RightBrace)
    ensures ParseMembers(s) == if members.Nil? then Missing else Found(rest)
    ensures Running(rest)
    decreases members, 0
  {
    hide Words, ParseValue, MoreMemberWords, MoreMembers;
    if members.Cons? {
      var after := MoreMemberWords(members.tail) + rest;
      var value := Words(members.head) + after;
      assert s == [Is(String)] + ([Is(Colon)] + value);
      MatchFirst(String, s, [Is(Colon)] + value);
      assert value[0] == s[2];
      MatchFirst(Colon, [Is(Colon)] + value, value);
      assert after[0] == s[2 + |Words(members.head)|];
      ValueIsFound(members.head, value, after);
      MoreMembersAreFound(members.tail, after, rest);
    } else {
      assert s == rest;
    }
  }

  lemma {:induction false} MoreMembersAreFound(members: Values, s: seq<Symbol>, rest: seq<Symbol>)
    requires Running(s) && s == MoreMemberWords(members) + rest && |rest| > 1 && rest[0] == Is(RightBrace)
    ensures MoreMembers(s) == Found(rest) && Running(rest)
    decreases members, 1
  {
    hide MemberWords, ParseMember;
    if members.Cons? {
      var after := MemberWords(members) + rest;
      assert s == [Is(Comma)] + after;
      assert after[0] == s[1];
      MatchFirst(Comma, s, after);
      MembersAreFound(members, after, rest);
    } else {
      assert s == rest;
    }
  }

  lemma {:induction false} ItemsAreFound(items: Values, s: seq<Symbol>, rest: seq<Symbol>)
    requires Running(s) && s == ItemWords(items) + rest && |rest| > 1 && rest[0] == Is(RightBracket)
    ensures ParseItems(s) == if items.Nil? then Missing else Found(rest)
    ensures Running(rest)
    decreases items, 0
  {
    hide Words, MoreItemWords, MoreItems;
    if items.Cons? {
      var after := MoreItemWords(items.tail) + rest;
      assert s == Words(items.head) + after;
      assert after[0] == s[|Words(items.head)|];
      ValueIsFound(items.head, s, after);
      MoreItemsAreFound(items.tail, after, rest);
    } else {
      assert s == rest;
    }
  }

  lemma {:induction false} MoreItemsAreFound(items: Values, s: seq<Symbol>, rest: seq<Symbol>)
    requires Running(s) && s == MoreItemWords(items) + rest && |rest| > 1 && rest[0] == Is(RightBracket)
    ensures MoreItems(s) == Found(rest) && Running(rest)
    decreases items, 1
  {
    hide ItemWords, ParseValue;
    if items.Cons? {
      var after := ItemWords(items) + rest;
      assert s == [Is(Comma)] + after;
      assert after[0] == s[1];
      MatchFirst(Comma, s, after);
      ItemsAreFound(items, after, rest);
    } else {
      assert s == rest;
    }
  }

  /** Whether the stream is that of one value and the end of the input. */
  ghost predicate IsText(s: seq<Symbol>) {
    exists v :: s == Words(v) + [Is(EndOfInput)]
  }

  /** The recogniser accepts a stream exactly when it is one value of the grammar followed
      by the end of the input. */
  lemma AcceptsIffText(s: seq<Symbol>)
    requires Running(s)
    ensures ParseText(s).Found? <==> IsText(s)
    ensures !ParseText(s).Missing?
  {
    if ParseText(s).Found? {
      var v := FoundIsValue(s);
      var rest := ParseValue(s).rest;
      assert rest[0] == Is(EndOfInput) && |rest| == 1;
      assert rest == [Is(EndOfInput)];
    }
    if v :| s == Words(v) + [Is(EndOfInput)] {
      ValueIsFound(v, s, [Is(EndOfInput)]);
    }
  }

  // ----- every value can be written -----

  function Spell(token: Token): string {
    match token
    case LeftBrace => "{"
    case RightBrace => "}"
    case LeftBracket => "["
    case RightBracket => "]"
    case Colon => ":"
    case Comma => ","
    case Integer => "0"
    case String => "\"\""
    case True => "true"
    case False => "false"
    case Null => "null"
    case _ => ""
  }

  function Spelled(s: seq<Symbol>): string {
    if s == [] || s[0] == Abort then [] else [' '] + Spell(s[0].token) + Spelled(s[1..])
  }

  lemma {:induction false} SpanIs(kind: Class, front: string, back: string)
    requires forall c :: c in front ==> In(kind, c)
    requires back == [] || !In(kind, back[0])
    ensures Span(kind, front + back) == |front|
  {
    if front == [] {
      assert front + back == back;
    } else {
      SpanIs(kind, front[1..], back);
      assert (front + back)[1..] == front[1..] + back;
    }
  }

  lemma AfterSpace(word: string, text: string, value: int)
    requires word == [] || !In(Space, word[0])
    ensures Span(Space, [' '] + word) == 1 && ([' '] + word)[1..] == word
  {
    SpanIs(Space, [' '], word);
  }

  lemma ScanLetters(word: string, back: string, text: string, value: int)
    requires word != [] && (forall c :: c in word ==> In(Letter, c)) && (back == [] || back[0] == ' ')
    ensures Scan([' '] + (word + back), text, value) == Lexeme(Keyword(word), word, value, back)
  {
    hide Keyword, ScanString, ScanDigits, ScanZero;
    assert (word + back)[0] == word[0] && word[0] in word;
    AfterSpace(word + back, text, value);
    SpanIs(Letter, word, back);
    assert (word + back)[..|word|] == word && (word + back)[|word|..] == back;
  }

  lemma ScanKeyword(word: string, back: string, text: string, value: int)
    requires word == "true" || word == "false" || word == "null"
    requires back == [] || back[0] == ' '
    ensures Scan([' '] + (word + back), text, value) == Lexeme(Keyword(word), word, value, back)
  {
    hide Scan, Keyword;
    ScanLetters(word, back, text, value);
  }

  lemma ScanSign(sign: char, back: string, text: string, value: int)
    requires Punctuation(sign).Some?
    ensures Scan([' '] + ([sign] + back), text, value) == Lexeme(Punctuation(sign).value, text, value, back)
  {
    hide ScanString, ScanDigits, ScanIdentifier;
    AfterSpace([sign] + back, text, value);
    assert ([sign] + back)[1..] == back;
  }

  lemma ScanLiteral(token: Token, back: string, text: string, value: int)
    requires token == Integer || token == String
    requires back == [] || back[0] == ' '
    ensures var r := Scan([' '] + (Spell(token) + back), text, value);
            r.Lexeme? && r.token == token && r.rest == back
  {
    hide ScanDigits, ScanIdentifier;
    AfterSpace(Spell(token) + back, text, value);
    EmptyString(back, value);
    assert ("0" + back)[1..] == back;
  }

  lemma ScanSpelled(token: Token, back: string, text: string, value: int)
    requires !Last(Is(token)) && (back == [] || back[0] == ' ')
    ensures var r := Scan([' '] + Spell(token) + back, text, value);
            r.Lexeme? && r.token == token && r.rest == back
  {
    hide Scan;
    assert [' '] + Spell(token) + back == [' '] + (Spell(token) + back);
    match token
    case Integer => ScanLiteral(token, back, text, value);
    case String => ScanLiteral(token, back, text, value);
    case True => ScanKeyword("true", back, text, value);
    case False => ScanKeyword("false", back, text, value);
    case Null => ScanKeyword("null", back, text, value);
    case LeftBrace | RightBrace | LeftBracket | RightBracket | Colon | Comma =>
      ScanSign(Spell(token)[0], back, text, value);
  }

  lemma EmptyString(back: string, value: int)
    ensures ("\"\"" + back)[1..] == ['"'] + back
    ensures ScanString(['"'] + back, [], value) == Lexeme(String, [], value, back)
  {
  }

  lemma {:induction false} SpelledLexesBack(s: seq<Symbol>, text: string, value: int)
    requires GoOn(s)
    ensures Lex(Spelled(s), text, value) == s + [Is(EndOfInput)]
    decreases |s|
  {
    if s == [] {
      assert Span(Space, []) == 0;
    } else {
      assert s[0] in s;
      ScanSpelled(s[0].token, Spelled(s[1..]), text, value);
      var r := Scan(Spelled(s), text, value);
      SpelledLexesBack(s[1..], r.text, r.value);
      assert s == [s[0]] + s[1..];
    }
  }

  predicate GoOn(s: seq<Symbol>) {
    forall symbol :: symbol in s ==> !Last(symbol)
  }

  /** No value has a last symbol among its tokens. */
  lemma {:induction false} WordsGoOn(v: Value)
    ensures GoOn(Words(v))
    decreases v, 0
  {
    match v
    case Object(members) => MemberWordsGoOn(members);
    case Array(items) => ItemWordsGoOn(items);
    case _ =>
  }

  lemma {:induction false} MemberWordsGoOn(members: Values)
    ensures GoOn(MemberWords(members)) && GoOn(MoreMemberWords(members))
    decreases members, 1
  {
    if members.Cons? {
      WordsGoOn(members.head);
      MemberWordsGoOn(members.tail);
    }
  }

  lemma {:induction false} ItemWordsGoOn(items: Values)
    ensures GoOn(ItemWords(items)) && GoOn(MoreItemWords(items))
    decreases items, 1
  {
    if items.Cons? {
      WordsGoOn(items.head);
      ItemWordsGoOn(items.tail);
    }
  }

  /** The text of a value, in characters. */
  function TextOf(v: Value): string
    decreases v, 0
  {
    match v
    case Number => " 0"
    case Text => " \"\""
    case Boolean(holds) => if holds then " true" else " false"
    case Nothing => " null"
    case Object(members) => " {" + MembersText(members) + " }"
    case Array(items) => " [" + ItemsText(items) + " ]"
  }

  function MembersText(members: Values): string
    decreases members, 0
  {
    match members
    case Nil => ""
    case Cons(value, more) => " \"\" :" + TextOf(value) + (if more.Nil? then "" else " ," + MembersText(more))
  }

  function ItemsText(items: Values): string
    decreases items, 0
  {
    match items
    case Nil => ""
    case Cons(value, more) => TextOf(value) + (if more.Nil? then "" else " ," + ItemsText(more))
  }

  lemma {:induction false} SpelledTwice(s: seq<Symbol>, t: seq<Symbol>)
    requires Abort !in s
    ensures Spelled(s + t) == Spelled(s) + Spelled(t)
    decreases |s|
  {
    hide Spell;
    if s == [] {
      assert s + t == t;
    } else {
      assert s[0] in s && (s + t)[1..] == s[1..] + t;
      SpelledTwice(s[1..], t);
    }
  }

  lemma TokensSpelled()
    ensures Spelled([]) == "" && Spelled([Is(Comma)]) == " ,"
    ensures Spelled([Is(String)]) == " \"\"" && Spelled([Is(String), Is(Colon)]) == " \"\" :"
    ensures Spelled([Is(LeftBrace)]) == " {" && Spelled([Is(RightBrace)]) == " }"
    ensures Spelled([Is(LeftBracket)]) == " [" && Spelled([Is(RightBracket)]) == " ]"
    ensures Spelled([Is(Integer)]) == " 0" && Spelled([Is(Null)]) == " null"
    ensures Spelled([Is(True)]) == " true" && Spelled([Is(False)]) == " false"
  {
    forall token ensures Spelled([Is(token)]) == " " + Spell(token) {
      assert [Is(token)][1..] == [] && Spelled([]) == "";
    }
    SpelledTwice([Is(String)], [Is(Colon)]);
    assert [Is(String)] + [Is(Colon)] == [Is(String), Is(Colon)];
  }

  lemma Surrounded(open: Token, inner: seq<Symbol>, close: Token)
    requires GoOn(inner)
    ensures Spelled([Is(open)] + inner + [Is(close)]) == Spelled([Is(open)]) + Spelled(inner) + Spelled([Is(close)])
  {
    hide Spelled;
    SpelledTwice([Is(open)], inner);
    SpelledTwice([Is(open)] + inner, [Is(close)]);
  }

  lemma {:induction false} TextIsSpelled(v: Value)
    ensures Spelled(Words(v)) == TextOf(v)
    decreases v, 0
  {
    hide Spelled, MemberWords, ItemWords, MembersText, ItemsText, GoOn;
    TokensSpelled();
    match v
    case Object(members) =>
      MembersAreSpelled(members);
      Surrounded(LeftBrace, MemberWords(members), RightBrace);
    case Array(items) =>
      ItemsAreSpelled(items);
      Surrounded(LeftBracket, ItemWords(items), RightBracket);
    case _ =>
  }

  lemma FirstMemberSpelled(value: seq<Symbol>, more: seq<Symbol>)
    requires GoOn(value)
    ensures Spelled([Is(String), Is(Colon)] + value + more) == " \"\" :" + Spelled(value) + Spelled(more)
  {
    hide Spelled;
    TokensSpelled();
    SpelledTwice([Is(String), Is(Colon)], value);
    SpelledTwice([Is(String), Is(Colon)] + value, more);
  }

  lemma CommaSpelled(more: seq<Symbol>)
    ensures Spelled([Is(Comma)] + more) == " ," + Spelled(more)
  {
    hide Spelled;
    TokensSpelled();
    SpelledTwice([Is(Comma)], more);
  }

  lemma {:induction false} MembersAreSpelled(members: Values)
    ensures Spelled(MemberWords(members)) == MembersText(members) && GoOn(MemberWords(members))
    ensures members.Cons? ==> Spelled(MoreMemberWords(members)) == " ," + MembersText(members)
    decreases members, 1
  {
    hide Spelled, Words, TextOf, GoOn;
    MemberWordsGoOn(members);
    NothingSpelled();
    CommaSpelled(MemberWords(members));
    if members.Cons? {
      TextIsSpelled(members.head);
      WordsGoOn(members.head);
      MembersAreSpelled(members.tail);
      FirstMemberSpelled(Words(members.head), MoreMemberWords(members.tail));
    }
  }

  lemma NothingSpelled()
    ensures Spelled([]) == []
  {
  }

  lemma {:induction false} ItemsAreSpelled(items: Values)
    ensures Spelled(ItemWords(items)) == ItemsText(items) && GoOn(ItemWords(items))
    ensures items.Cons? ==> Spelled(MoreItemWords(items)) == " ," + ItemsText(items)
    decreases items, 1
  {
    hide Spelled, Words, TextOf, GoOn;
    ItemWordsGoOn(items);
    NothingSpelled();
    CommaSpelled(ItemWords(items));
    if items.Cons? {
      TextIsSpelled(items.head);
      NoAbort(items.head);
      ItemsAreSpelled(items.tail);
      SpelledTwice(Words(items.head), MoreItemWords(items.tail));
    }
  }

  lemma NoAbort(v: Value)
    ensures Abort !in Words(v)
  {
    WordsGoOn(v);
  }

  /** Every value of the grammar has a text, which the recogniser accepts. */
  lemma EveryValueCanBeWritten(v: Value, text: string, value: int)
    ensures Lex(TextOf(v), text, value) == Words(v) + [Is(EndOfInput)]
    ensures ParseText(Lex(TextOf(v), text, value)).Found?
  {
    WordsGoOn(v);
    TextIsSpelled(v);
    SpelledLexesBack(Words(v), text, value);
    AcceptsIffText(Words(v) + [Is(EndOfInput)]);
  }

  /** A number with a sign in front is no text. */
  lemma SignedNumbersAreRefused(rest: string, text: string, value: int)
    ensures Lex("-" + rest, text, value) == [Is(Identifier)]
    ensures !IsText(Lex("-" + rest, text, value))
  {
    OtherCharacters('-', rest, text, value);
    assert ['-'] + rest == "-" + rest;
    forall v ensures [Is(Identifier)] != Words(v) + [Is(EndOfInput)] {
      assert |Words(v) + [Is(EndOfInput)]| > 1;
    }
  }
}
