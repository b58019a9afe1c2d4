/** The scanner under the JSON recogniser: what one call makes of the characters left,
    and the goto loops that compute it. */
module JsonScanner {
  import opened Wrappers

  datatype Token =
    | LeftBrace | RightBrace | LeftBracket | RightBracket | Colon | Comma
    | Integer | String | True | False | Null | Identifier | EndOfInput

  /** One recognised token with its text and value, and the characters after it, or the
      report that ends the program. */
  datatype Lexeme =
    | Lexeme(token: Token, text: string, value: int, rest: string)
    | Aborted

  datatype Class = Space | Decimal | Octal | Hex | Letter

  predicate In(kind: Class, c: char) {
    match kind
    case Space => c == ' ' || c == '\t' || c == '\r' || c == '\n'
    case Decimal => '0' <= c <= '9'
    case Octal => '0' <= c <= '7'
    case Hex => '0' <= c <= '9' || 'a' <= c <= 'f' || 'A' <= c <= 'F'
    case Letter => c == '_' || c == '$' || 'A' <= c <= 'Z' || 'a' <= c <= 'z'
  }

  /** How many characters at the front are of the class. */
  function Span(kind: Class, chars: string): (n: nat)
    ensures n <= |chars|
    ensures forall i :: 0 <= i < n ==> In(kind, chars[i])
    ensures n < |chars| ==> !In(kind, chars[n])
  {
    if chars == [] || !In(kind, chars[0]) then 0 else 1 + Span(kind, chars[1..])
  }

  function DigitValue(c: char): int {
    if 'a' <= c <= 'f' then (c - 'a') as int + 10
    else if 'A' <= c <= 'F' then (c - 'A') as int + 10
    else c as int - '0' as int
  }

  function Power(base: int, n: nat): int {
    if n == 0 then 1 else base * Power(base, n - 1)
  }

  /** What the digits denote, most significant first. */
  function Positional(base: int, digits: string): int {
    if digits == [] then 0
    else DigitValue(digits[0]) * Power(base, |digits| - 1) + Positional(base, digits[1..])
  }

  /** The value that the digit loops leave: they start from the value `carried` over from
      the token before. */
  function Carried(carried: int, base: int, digits: string): int {
    carried * Power(base, |digits|) + Positional(base, digits)
  }

  function Punctuation(c: char): Option<Token> {
    match c
    case '{' => Some(LeftBrace)
    case '}' => Some(RightBrace)
    case '[' => Some(LeftBracket)
    case ']' => Some(RightBracket)
    case ':' => Some(Colon)
    case ',' => Some(Comma)
    case _ => None
  }

  function Keyword(text: string): Token {
    if text == "null" then Null
    else if text == "true" then True
    else if text == "false" then False
    else Identifier
  }

  /** What a character after a backslash stands for. */
  function Escaped(c: char): Option<char> {
    match c
    case '"' => Some('"')
    case 'n' => Some('\n')
    case 'r' => Some('\r')
    case 't' => Some('\t')
    case _ => None
  }

  /** The rest of a string whose first characters, `text`, are recognised. */
  function ScanString(chars: string, text: string, value: int): Lexeme {
    if chars == [] then Aborted
    else if chars[0] == '"' then Lexeme(String, text, value, chars[1..])
    else if chars[0] == '\\' then
      if |chars| == 1 || Escaped(chars[1]).None? then Aborted
      else ScanString(chars[2..], text + [Escaped(chars[1]).value], value)
    else ScanString(chars[1..], text + [chars[0]], value)
  }

  /** A run of digits, at the front of `chars`. */
  function ScanDigits(kind: Class, base: int, chars: string, text: string, value: int): Lexeme {
    var n := Span(kind, chars);
    Lexeme(Integer, text, Carried(value, base, chars[..n]), chars[n..])
  }

  function ScanOctal(chars: string, text: string, value: int): Lexeme {
    var n := Span(Octal, chars);
    if n < |chars| && In(Decimal, chars[n]) then Aborted else ScanDigits(Octal, 8, chars, text, value)
  }

  /** A number that begins with the zero before `chars`. */
  function ScanZero(chars: string, text: string, value: int): Lexeme {
    if chars == [] then Lexeme(Integer, text, 0, [])
    else if chars[0] == 'x' then ScanDigits(Hex, 16, chars[1..], text, value)
    else if In(Octal, chars[0]) then ScanOctal(chars, text, value)
    else if In(Decimal, chars[0]) then Aborted
    else Lexeme(Integer, text, 0, chars)
  }

  function ScanIdentifier(chars: string, value: int): Lexeme {
    var n := Span(Letter, chars);
    if n == 0 && chars != [] && chars[0] > 'z' then Aborted
    else Lexeme(Keyword(chars[..n]), chars[..n], value, chars[n..])
  }

  /** One call of the scanner: `text` and `value` are what the call before it left. */
  function Scan(chars: string, text: string, value: int): Lexeme {
    var s := chars[Span(Space, chars)..];
    if s == [] then Lexeme(EndOfInput, text, value, [])
    else if s[0] == '"' then ScanString(s[1..], [], value)
    else if Punctuation(s[0]).Some? then Lexeme(Punctuation(s[0]).value, text, value, s[1..])
    else if s[0] == '0' then ScanZero(s[1..], text, value)
    else if In(Decimal, s[0]) then ScanDigits(Decimal, 10, s, text, value)
    else ScanIdentifier(s, value)
  }

  // ----- the scanner's state -----

  class Scanner {
    var c: Option<char>
    var input: string
    var currentToken: Token
    var currentString: string
    var currentInteger: int

    /** The characters not recognised yet, the current one first. */
    ghost function Chars(): string
      reads `c, `input
    {
      if c.None? then [] else [c.value] + input
    }

    /** After the end of the input there is nothing more. */
    ghost predicate Valid()
      reads `c, `input
    {
      c.None? ==> input == []
    }

    constructor (input: string)
      ensures Valid() && Chars() == input
      ensures currentString == "" && currentInteger == 0
    {
      this.input := input;
      c, currentToken, currentString, currentInteger := None, EndOfInput, "", 0;
      new;
      NextChar();
    }

    method NextChar()
      requires Valid() || c.None?
      modifies `c, `input
      ensures Valid()
      ensures Chars() == if old(c).Some? then old(Chars())[1..] else old(input)
    {
      if input == [] {
        c := None;
      } else {
        c, input := Some(input[0]), input[1..];
      }
    }

    predicate Sees(kind: Class)
      reads `c
    {
      c.Some? && In(kind, c.value)
    }

    method EatWhitespace()
      requires Valid()
      modifies `c, `input
      ensures Valid() && Chars() == old(Chars())[Span(Space, old(Chars()))..]
    {
      ghost var n := 0;
      while Sees(Space)
        invariant Valid() && n <= |old(Chars())| && Chars() == old(Chars())[n..]
        invariant n + Span(Space, Chars()) == Span(Space, old(Chars()))
        decreases |Chars()|
      {
        NextChar();
        n := n + 1;
      }
    }

    /** The three digit loops, which differ in their digits and their base. */
    method RecognizeDigits(kind: Class, base: int)
      requires Valid()
      modifies `c, `input, `currentInteger
      ensures Valid() && Chars() == old(Chars())[Span(kind, old(Chars()))..]
      ensures currentInteger == Carried(old(currentInteger), base, old(Chars())[..Span(kind, old(Chars()))])
    {
      hide Carried, DigitValue, In;
      ghost var all, n := Chars(), 0;
      NoDigits(currentInteger, base);
      while Sees(kind)
        invariant Valid() && n <= |all| && Chars() == all[n..]
        invariant n + Span(kind, Chars()) == Span(kind, all)
        invariant currentInteger == Carried(old(currentInteger), base, all[..n])
        decreases |Chars()|
      {
        OneMoreDigit(old(currentInteger), base, all[..n], c.value);
        OneMore(all, n);
        currentInteger := currentInteger * base;
        currentInteger := currentInteger + DigitValue(c.value);
        NextChar();
        n := n + 1;
      }
    }

    /** What the last call has left. */
    ghost function Found(): Lexeme
      reads this
    {
      Lexeme(currentToken, currentString, currentInteger, Chars())
    }

    /** The characters of a string after its opening quote, up to the closing one. */
    method RecognizeString() returns (ok: bool)
      requires Valid()
      modifies `c, `input, `currentString, `currentToken
      ensures Valid()
      ensures ScanString(old(Chars()), [], currentInteger) == if ok then Found() else Aborted
    {
      currentString := [];
      while c.Some? && c.value != '"'
        invariant Valid()
        invariant ScanString(Chars(), currentString, currentInteger) == ScanString(old(Chars()), [], currentInteger)
        decreases |Chars()|
      {
        if c.value == '\\' {
          NextChar();
          if c.None? || Escaped(c.value).None? { return false; }
          currentString := currentString + [Escaped(c.value).value];
        } else {
          currentString := currentString + [c.value];
        }
        NextChar();
      }
      if c.None? { return false; }
      NextChar();
      currentToken := String;
      return true;
    }

    method RecognizeNumber(kind: Class, base: int)
      requires Valid()
      modifies `c, `input, `currentInteger, `currentToken
      ensures Valid()
      ensures Found() == ScanDigits(kind, base, old(Chars()), currentString, old(currentInteger))
    {
      hide Carried;
      RecognizeDigits(kind, base);
      currentToken := Integer;
    }

    /** An octal number must not go on with an eight or a nine. */
    method RecognizeOctal() returns (ok: bool)
      requires Valid()
      modifies `c, `input, `currentInteger, `currentToken
      ensures Valid()
      ensures ScanOctal(old(Chars()), currentString, old(currentInteger)) == if ok then Found() else Aborted
    {
      hide Carried, In;
      RecognizeDigits(Octal, 8);
      if Sees(Decimal) { return false; }
      currentToken := Integer;
      return true;
    }

    /** A number that begins with a zero, which is the current character. */
    method DetermineBase() returns (ok: bool)
      requires Valid() && c.Some?
      modifies `c, `input, `currentInteger, `currentToken
      ensures Valid()
      ensures ScanZero(old(Chars())[1..], currentString, old(currentInteger)) == if ok then Found() else Aborted
    {
      hide Carried, In, ScanDigits, ScanOctal;
      NextChar();
      if c == Some('x') {
        NextChar();
        RecognizeNumber(Hex, 16);
        return true;
      } else if Sees(Octal) {
        ok := RecognizeOctal();
      } else if Sees(Decimal) {
        return false;
      } else {
        currentInteger := 0;
        currentToken := Integer;
        return true;
      }
    }

    /** Letters up to the first other character; only characters above `z` are refused. */
    method RecognizeIdentifier() returns (ok: bool)
      requires Valid()
      modifies `c, `input, `currentString, `currentToken
      ensures Valid()
      ensures ScanIdentifier(old(Chars()), currentInteger) == if ok then Found() else Aborted
    {
      hide In, Keyword;
      ghost var all, n := Chars(), 0;
      currentString := [];
      while Sees(Letter)
        invariant Valid() && n <= |all| && Chars() == all[n..] && currentString == all[..n]
        invariant n + Span(Letter, Chars()) == Span(Letter, all)
        decreases |Chars()|
      {
        OneMore(all, n);
        currentString := currentString + [c.value];
        NextChar();
        n := n + 1;
      }
      if c.Some? && c.value > 'z' && currentString == [] { return false; }
      currentToken := Keyword(currentString);
      return true;
    }

    /** Recognises the next token, or ends the program. */
    method GetNextToken() returns (ok: bool)
      requires Valid()
      modifies this
      ensures Valid()
      ensures Scan(old(Chars()), old(currentString), old(currentInteger)) == if ok then Found() else Aborted
    {
      hide In, ScanString, ScanDigits, ScanZero, ScanIdentifier;
      EatWhitespace();
      if c.None? {
        currentToken := EndOfInput;
        return true;
      }
      if c.value == '"' {
        NextChar();
        ok := RecognizeString();
      } else if Punctuation(c.value).Some? {
        currentToken := Punctuation(c.value).value;
        NextChar();
        ok := true;
      } else if c.value == '0' {
        ok := DetermineBase();
      } else if Sees(Decimal) {
        RecognizeNumber(Decimal, 10);
        ok := true;
      } else {
        ok := RecognizeIdentifier();
      }
    }
  }

  lemma OneMore(all: string, n: nat)
    requires n < |all|
    ensures all[..n + 1] == all[..n] + [all[n]] && all[n..][1..] == all[n + 1..]
  {
  }

  lemma Distribute(a: int, power: int, rest: int, base: int)
    ensures (a * power + rest) * base == a * (base * power) + rest * base
  {
    assert a * power * base == a * (base * power);
  }

  lemma {:induction false} PositionalSnoc(base: int, digits: string, d: char)
    ensures Positional(base, digits + [d]) == Positional(base, digits) * base + DigitValue(d)
  {
    hide DigitValue;
    if digits == [] {
      assert digits + [d] == [d];
      assert Positional(base, [d]) == DigitValue(d) * Power(base, 0) + 0;
    } else {
      PositionalSnoc(base, digits[1..], d);
      assert (digits + [d])[1..] == digits[1..] + [d];
      Distribute(DigitValue(digits[0]), Power(base, |digits| - 1), Positional(base, digits[1..]), base);
    }
  }

  lemma NoDigits(carried: int, base: int)
    ensures Carried(carried, base, []) == carried
  {
  }

  lemma OneMoreDigit(carried: int, base: int, digits: string, d: char)
    ensures Carried(carried, base, digits + [d]) == Carried(carried, base, digits) * base + DigitValue(d)
  {
    hide DigitValue, Positional;
    PositionalSnoc(base, digits, d);
    Distribute(carried, Power(base, |digits|), Positional(base, digits), base);
  }

  // ----- what one call promises -----

  /** A call aborts, ends the input, gives an identifier, or leaves fewer characters. */
  lemma Progress(chars: string, text: string, value: int)
    ensures var r := Scan(chars, text, value);
            r.Lexeme? ==> |r.rest| < |chars| || (|r.rest| <= |chars| && (r.token.EndOfInput? || r.token.Identifier?))
    ensures var r := Scan(chars, text, value);
            r.Lexeme? && r.token.EndOfInput? ==> r.rest == []
  {
    var s := chars[Span(Space, chars)..];
    if s != [] && s[0] == '"' { StringProgress(s[1..], [], value); }
  }

  lemma {:induction false} StringProgress(chars: string, text: string, value: int)
    ensures var r := ScanString(chars, text, value);
            r.Lexeme? ==> r.token == String && |r.rest| < |chars| && r.value == value
    decreases |chars|
  {
    if chars == [] || chars[0] == '"' {
    } else if chars[0] != '\\' {
      StringProgress(chars[1..], text + [chars[0]], value);
    } else if |chars| > 1 && Escaped(chars[1]).Some? {
      StringProgress(chars[2..], text + [Escaped(chars[1]).value], value);
    }
  }

  /** The form in which a string is written between quotes. */
  function Escape(text: string): string {
    if text == [] then [] else EscapeOne(text[0]) + Escape(text[1..])
  }

  function EscapeOne(c: char): string {
    match c
    case '"' => "\\\""
    case '\n' => "\\n"
    case '\r' => "\\r"
    case '\t' => "\\t"
    case _ => [c]
  }

  lemma {:induction false} EscapedScansBack(text: string, rest: string, before: string, value: int)
    requires '\\' !in text
    ensures ScanString(Escape(text) + ['"'] + rest, before, value) == Lexeme(String, before + text, value, rest)
    decreases |text|
  {
    var chars := Escape(text) + ['"'] + rest;
    if text == [] {
      assert chars == ['"'] + rest && before + text == before;
    } else {
      EscapedScansBack(text[1..], rest, before + [text[0]], value);
      var tail := Escape(text[1..]) + ['"'] + rest;
      assert chars == EscapeOne(text[0]) + tail;
      assert chars[|EscapeOne(text[0])|..] == tail;
      assert before + [text[0]] + text[1..] == before + text;
    }
  }

  /** Scanning the escaped form of a string without backslashes gives the string back and
      consumes exactly that form. */
  lemma RoundTrip(text: string, rest: string, before: string, value: int)
    requires '\\' !in text
    ensures Scan(['"'] + Escape(text) + ['"'] + rest, before, value) == Lexeme(String, text, value, rest)
  {
    var chars := ['"'] + Escape(text) + ['"'] + rest;
    assert Span(Space, chars) == 0;
    assert chars[1..] == Escape(text) + ['"'] + rest;
    EscapedScansBack(text, rest, [], value);
  }

  lemma {:induction false} NoBackslash(chars: string, text: string, value: int)
    requires '\\' !in text
    ensures var r := ScanString(chars, text, value); r.Lexeme? ==> '\\' !in r.text
    decreases |chars|
  {
    if chars == [] || chars[0] == '"' {
    } else if chars[0] != '\\' {
      NoBackslash(chars[1..], text + [chars[0]], value);
    } else if |chars| > 1 && Escaped(chars[1]).Some? {
      NoBackslash(chars[2..], text + [Escaped(chars[1]).value], value);
    }
  }

  ghost predicate Denotes(chars: string, text: string) {
    ScanString(chars, [], 0) == Lexeme(String, text, 0, [])
  }

  /** There is a way to write a string exactly when it holds no backslash. */
  lemma WritableIffNoBackslash(text: string)
    ensures (exists chars :: Denotes(chars, text)) <==> '\\' !in text
  {
    if '\\' !in text {
      EscapedScansBack(text, [], [], 0);
      assert Escape(text) + ['"'] + [] == Escape(text) + ['"'];
      assert Denotes(Escape(text) + ['"'], text);
    }
    forall chars | Denotes(chars, text) ensures '\\' !in text { NoBackslash(chars, [], 0); }
  }

  // ----- what a number means -----

  /** A zero is not the start of a longer number. */
  predicate LoneZero(s: string) {
    s != [] && s[0] == '0' && (|s| == 1 || (s[1] != 'x' && !In(Octal, s[1])))
  }

  /** What the number at the front denotes by itself: hexadecimal after `0x`, octal after
      another zero, and decimal otherwise. */
  function Denoted(s: string): int
    requires s != []
  {
    if s[0] != '0' then Positional(10, s[..Span(Decimal, s)])
    else if LoneZero(s) then 0
    else if s[1] == 'x' then Positional(16, s[2..][..Span(Hex, s[2..])])
    else Positional(8, s[1..][..Span(Octal, s[1..])])
  }

  /** The value of a number is what its digits denote exactly when nothing was carried over
      from an earlier number, or when the number is a lone zero. */
  lemma NumberIsItsDigits(chars: string, text: string, carried: int)
    requires var r := Scan(chars, text, carried); r.Lexeme? && r.token == Integer
    ensures var s := chars[Span(Space, chars)..];
            s != [] && (Scan(chars, text, carried).value == Denoted(s) <==> carried == 0 || LoneZero(s))
  {
    hide Carried, Positional, In, Span, ScanString, ScanZero, Power;
    var s := chars[Span(Space, chars)..];
    if s != [] {
      if s[0] == '"' {
        StringProgress(s[1..], [], carried);
      } else if s[0] == '0' {
        ZeroIsItsDigits(s, text, carried);
      } else if Punctuation(s[0]).None? && In(Decimal, s[0]) {
        CarriedIsPositional(carried, 10, s[..Span(Decimal, s)]);
      }
    }
  }

  lemma ZeroIsItsDigits(s: string, text: string, carried: int)
    requires s != [] && s[0] == '0'
    ensures var r := ScanZero(s[1..], text, carried);
            r.Lexeme? ==> (r.value == Denoted(s) <==> carried == 0 || LoneZero(s))
  {
    hide Carried, Positional, In, Span;
    if !LoneZero(s) {
      var digits := if s[1] == 'x' then s[2..][..Span(Hex, s[2..])] else s[1..][..Span(Octal, s[1..])];
      assert s[1..][1..] == s[2..];
      CarriedIsPositional(carried, if s[1] == 'x' then 16 else 8, digits);
    }
  }

  lemma CarriedIsPositional(carried: int, base: int, digits: string)
    requires base > 0
    ensures Carried(carried, base, digits) == Positional(base, digits) <==> carried == 0
  {
    PowerPositive(base, |digits|);
  }

  lemma {:induction false} PowerPositive(base: int, n: nat)
    requires base > 0
    ensures Power(base, n) > 0
  {
    if n > 0 { PowerPositive(base, n - 1); }
  }

  // ----- what numbers, signs and words are -----

  /** A number written with the given symbols, of which there are as many as the base, most significant first. */
  function Numeral(symbols: string, n: nat): string
    requires |symbols| >= 2
    decreases n
  {
    if n < |symbols| then [symbols[n]] else Numeral(symbols, n / |symbols|) + [symbols[n % |symbols|]]
  }

  lemma {:induction false} NumeralIs(kind: Class, symbols: string, n: nat)
    requires |symbols| >= 2 && forall d :: 0 <= d < |symbols| ==> In(kind, symbols[d]) && DigitValue(symbols[d]) == d
    ensures Positional(|symbols|, Numeral(symbols, n)) == n && Numeral(symbols, n) != []
    ensures forall i :: 0 <= i < |Numeral(symbols, n)| ==> In(kind, Numeral(symbols, n)[i])
    ensures n > 0 ==> exists d :: 0 < d < |symbols| && Numeral(symbols, n)[0] == symbols[d]
    decreases n
  {
    hide In, DigitValue, Positional;
    var base := |symbols|;
    if n < base {
      OneDigit(base, symbols[n]);
      assert Numeral(symbols, n)[0] == symbols[n];
    } else {
      Smaller(base, n);
      NumeralIs(kind, symbols, n / base);
      PositionalSnoc(base, Numeral(symbols, n / base), symbols[n % base]);
      assert Numeral(symbols, n)[0] == Numeral(symbols, n / base)[0];
    }
  }

  lemma OneDigit(base: int, c: char)
    ensures Positional(base, [c]) == DigitValue(c)
  {
    hide DigitValue;
    assert Power(base, 0) == 1 && [c][1..] == [];
  }

  lemma Smaller(base: nat, n: nat)
    requires 2 <= base <= n
    ensures 0 < n / base < n && (n / base) * base + n % base == n
  {
  }

  lemma {:induction false} SpanOf(kind: Class, front: string, back: string)
    requires forall i :: 0 <= i < |front| ==> In(kind, front[i])
    requires back == [] || !In(kind, back[0])
    ensures Span(kind, front + back) == |front|
    decreases |front|
  {
    hide In;
    if front == [] {
      assert front + back == back;
    } else {
      assert (front + back)[1..] == front[1..] + back;
      SpanOf(kind, front[1..], back);
    }
  }

  lemma DigitsAreScanned(kind: Class, symbols: string, n: nat, rest: string, text: string)
    requires |symbols| >= 2 && forall d :: 0 <= d < |symbols| ==> In(kind, symbols[d]) && DigitValue(symbols[d]) == d
    requires rest == [] || !In(kind, rest[0])
    ensures ScanDigits(kind, |symbols|, Numeral(symbols, n) + rest, text, 0) == Lexeme(Integer, text, n, rest)
    ensures Span(kind, Numeral(symbols, n) + rest) == |Numeral(symbols, n)|
  {
    hide In, DigitValue, Positional;
    NumeralIs(kind, symbols, n);
    var digits := Numeral(symbols, n);
    SpanOf(kind, digits, rest);
    assert (digits + rest)[..|digits|] == digits && (digits + rest)[|digits|..] == rest;
  }

  /** A number that is written in decimal digits is scanned as itself, when nothing was carried over. */
  lemma DecimalRoundTrip(n: nat, rest: string, text: string)
    requires rest == [] || !('0' <= rest[0] <= '9' || (n == 0 && rest[0] == 'x'))
    ensures Scan(Numeral("0123456789", n) + rest, text, 0) == Lexeme(Integer, text, n, rest)
  {
    hide ScanDigits, ScanString, ScanOctal, Numeral;
    var chars := Numeral("0123456789", n) + rest;
    DecimalSymbols();
    DigitsAreScanned(Decimal, "0123456789", n, rest, text);
    NumeralIs(Decimal, "0123456789", n);
    assert chars[0] == Numeral("0123456789", n)[0];
    assert Span(Space, chars) == 0;
    if n == 0 {
      ZeroIsWritten();
      assert chars[1..] == rest;
    }
  }

  lemma DecimalSymbols()
    ensures forall d :: 0 <= d < |"0123456789"| ==> In(Decimal, "0123456789"[d]) && DigitValue("0123456789"[d]) == d
  {
  }

  lemma ZeroIsWritten()
    ensures Numeral("0123456789", 0) == "0"
  {
  }

  /** So is one that is written in octal digits after a zero. */
  lemma OctalRoundTrip(n: nat, rest: string, text: string)
    requires rest == [] || !('0' <= rest[0] <= '9')
    ensures Scan("0" + Numeral("01234567", n) + rest, text, 0) == Lexeme(Integer, text, n, rest)
  {
    hide ScanDigits, ScanString, Numeral;
    var chars := "0" + Numeral("01234567", n) + rest;
    OctalSymbols();
    DigitsAreScanned(Octal, "01234567", n, rest, text);
    NumeralIs(Octal, "01234567", n);
    var digits := Numeral("01234567", n);
    assert chars == "0" + (digits + rest) && chars[1..] == digits + rest;
    assert Span(Space, chars) == 0 && (digits + rest)[0] == digits[0];
    assert rest != [] ==> (digits + rest)[|digits|] == rest[0];
  }

  /** And so is one that is written in hexadecimal digits, small or capital, after `0x`. */
  lemma HexRoundTrip(symbols: string, n: nat, rest: string, text: string)
    requires symbols == "0123456789abcdef" || symbols == "0123456789ABCDEF"
    requires rest == [] || !('0' <= rest[0] <= '9' || 'a' <= rest[0] <= 'f' || 'A' <= rest[0] <= 'F')
    ensures Scan("0x" + Numeral(symbols, n) + rest, text, 0) == Lexeme(Integer, text, n, rest)
  {
    hide Scan, ScanDigits, Numeral, DigitValue;
    HexSymbols(symbols);
    DigitsAreScanned(Hex, symbols, n, rest, text);
    HexPrefix(Numeral(symbols, n) + rest, text);
    assert "0x" + Numeral(symbols, n) + rest == "0x" + (Numeral(symbols, n) + rest);
  }

  lemma HexPrefix(chars: string, text: string)
    ensures Scan("0x" + chars, text, 0) == ScanDigits(Hex, 16, chars, text, 0)
  {
    hide ScanDigits, ScanString, ScanOctal, ScanIdentifier;
    var all := "0x" + chars;
    assert all[0] == '0' && all[1] == 'x' && all[1..][1..] == chars;
  }

  lemma HexSymbols(symbols: string)
    requires symbols == "0123456789abcdef" || symbols == "0123456789ABCDEF"
    ensures |symbols| == 16 && forall d :: 0 <= d < 16 ==> In(Hex, symbols[d]) && DigitValue(symbols[d]) == d
  {
  }

  /** The signs and the words of the language, and what an escape in a string stands for. */
  lemma SignsAndWords(text: string, value: int)
    ensures Scan("{", text, value) == Lexeme(LeftBrace, text, value, [])
    ensures Scan("}", text, value) == Lexeme(RightBrace, text, value, [])
    ensures Scan("[", text, value) == Lexeme(LeftBracket, text, value, [])
    ensures Scan("]", text, value) == Lexeme(RightBracket, text, value, [])
    ensures Scan(":", text, value) == Lexeme(Colon, text, value, [])
    ensures Scan(",", text, value) == Lexeme(Comma, text, value, [])
    ensures Scan("null", text, value) == Lexeme(Null, "null", value, [])
    ensures Scan("true", text, value) == Lexeme(True, "true", value, [])
    ensures Scan("false", text, value) == Lexeme(False, "false", value, [])
    ensures Scan("\"\\n\"", text, value) == Lexeme(String, "\n", value, [])
    ensures Scan("\"\\r\"", text, value) == Lexeme(String, "\r", value, [])
    ensures Scan("\"\\t\"", text, value) == Lexeme(String, "\t", value, [])
    ensures Scan("\"\\\"\"", text, value) == Lexeme(String, "\"", value, [])
  {
    hide Scan;
    WordIs("null", text, value);
    WordIs("true", text, value);
    WordIs("false", text, value);
    SignsAre(text, value);
    EscapeIs('n', '\n', text, value);
    EscapeIs('r', '\r', text, value);
    EscapeIs('t', '\t', text, value);
    EscapeIs('"', '"', text, value);
    assert "\"\\n\"" == ['"', '\\', 'n', '"'] && "\"\\r\"" == ['"', '\\', 'r', '"'];
    assert "\"\\t\"" == ['"', '\\', 't', '"'] && "\"\\\"\"" == ['"', '\\', '"', '"'];
  }

  lemma SignsAre(text: string, value: int)
    ensures forall c :: Punctuation(c).Some? ==>
      Scan([c], text, value) == Lexeme(Punctuation(c).value, text, value, [])
  {
    hide ScanString, ScanDigits, ScanZero, ScanIdentifier;
    forall c | Punctuation(c).Some?
      ensures Scan([c], text, value) == Lexeme(Punctuation(c).value, text, value, [])
    {
      assert Span(Space, [c]) == 0 && [c][1..] == [];
    }
  }

  lemma WordIs(word: string, text: string, value: int)
    requires word == "null" || word == "true" || word == "false"
    ensures Scan(word, text, value) == Lexeme(Keyword(word), word, value, [])
  {
    hide Keyword, ScanString, ScanDigits, ScanZero;
    assert word + [] == word;
    SpanOf(Letter, word, []);
  }

  lemma EscapeIs(c: char, meant: char, text: string, value: int)
    requires Escaped(c) == Some(meant)
    ensures Scan(['"', '\\', c, '"'], text, value) == Lexeme(String, [meant], value, [])
  {
    hide Escaped;
    var chars := ['"', '\\', c, '"'];
    assert Span(Space, chars) == 0 && chars[1..] == ['\\', c, '"'] && chars[1..][2..] == ['"'];
    assert ScanString(['"'], [] + [meant], value) == Lexeme(String, [meant], value, []);
  }

  // ----- what is no token -----

  /** An eight or a nine in an octal number ends the program. */
  lemma OctalAborts(n: nat, c: char, rest: string, text: string, value: int)
    requires c == '8' || c == '9'
    ensures Scan("0" + [c] + rest, text, value) == Aborted
    ensures Scan("0" + Numeral("01234567", n) + [c] + rest, text, value) == Aborted
  {
    hide ScanDigits, ScanString, Numeral, DigitValue;
    var digits := Numeral("01234567", n);
    OctalSymbols();
    NumeralIs(Octal, "01234567", n);
    SpanOf(Octal, digits, [c] + rest);
    ZeroThen([c] + rest, text, value);
    ZeroThen(digits + ([c] + rest), text, value);
    assert "0" + [c] + rest == "0" + ([c] + rest);
    assert "0" + digits + [c] + rest == "0" + (digits + ([c] + rest));
    assert (digits + ([c] + rest))[0] == digits[0] && (digits + ([c] + rest))[|digits|] == c;
  }

  lemma OctalSymbols()
    ensures forall d :: 0 <= d < |"01234567"| ==> In(Octal, "01234567"[d]) && DigitValue("01234567"[d]) == d
  {
  }

  lemma ZeroThen(chars: string, text: string, value: int)
    ensures Scan("0" + chars, text, value) == ScanZero(chars, text, value)
  {
    hide ScanZero, ScanString, ScanDigits;
    assert ("0" + chars)[1..] == chars;
  }

  lemma {:induction false} OpenStringAborts(chars: string, text: string, value: int)
    requires '"' !in chars && '\\' !in chars
    ensures ScanString(chars, text, value) == Aborted
    decreases |chars|
  {
    if chars != [] { OpenStringAborts(chars[1..], text + [chars[0]], value); }
  }

  lemma {:induction false} BadEscapeAborts(front: string, c: char, rest: string, text: string, value: int)
    requires '"' !in front && '\\' !in front && c != '"' && c != 'n' && c != 'r' && c != 't'
    ensures ScanString(front + ['\\', c] + rest, text, value) == Aborted
    decreases |front|
  {
    var chars := front + ['\\', c] + rest;
    if front == [] {
      assert chars[0] == '\\' && chars[1] == c;
    } else {
      assert chars[1..] == front[1..] + ['\\', c] + rest;
      BadEscapeAborts(front[1..], c, rest, text + [front[0]], value);
    }
  }

  /** So does a string that is not closed, and an escape that is none. */
  lemma StringsAbort(front: string, c: char, rest: string, text: string, value: int)
    requires '"' !in front && '\\' !in front
    ensures Scan("\"" + front, text, value) == Aborted
    ensures c != '"' && c != 'n' && c != 'r' && c != 't' ==>
      Scan("\"" + front + ['\\', c] + rest, text, value) == Aborted
  {
    OpenStringAborts(front, [], value);
    assert ("\"" + front)[1..] == front;
    if c != '"' && c != 'n' && c != 'r' && c != 't' {
      BadEscapeAborts(front, c, rest, [], value);
      assert ("\"" + front + ['\\', c] + rest)[1..] == front + ['\\', c] + rest;
    }
  }

  /** Any other character is taken for an identifier without letters: the scanner stays where it is.  So it does
      at the sign of a negative number and at the point of a fraction. */
  lemma OtherCharacters(c: char, rest: string, text: string, value: int)
    requires !(c == ' ' || c == '\t' || c == '\r' || c == '\n' || c == '"' || '0' <= c <= '9')
    requires !(c == '_' || c == '$' || 'A' <= c <= 'Z' || 'a' <= c <= 'z')
    requires !(c == '{' || c == '}' || c == '[' || c == ']' || c == ':' || c == ',')
    ensures Scan([c] + rest, text, value) == if c > 'z' then Aborted else Lexeme(Identifier, [], value, [c] + rest)
  {
    hide ScanString, ScanDigits, ScanZero;
    assert ([c] + rest)[..0] == [] && ([c] + rest)[0..] == [c] + rest;
  }
}
