/** The recursive-descent recogniser over the scanner's current token. */
module JsonRecogniser {
  import opened JsonGrammar
  import opened JsonScanner
  import opened Wrappers

  /** A nonterminal returns one or zero, or the program ends in it. */
  datatype Verdict = Yes | No | Exit

  class Recogniser {
    const scanner: Scanner

    /** The stream from the current token on. */
    ghost function Rest(): (s: seq<Symbol>)
      reads scanner
      ensures Running(s)
    {
      if Last(Is(scanner.currentToken)) then [Is(scanner.currentToken)]
      else [Is(scanner.currentToken)] + Lex(scanner.Chars(), scanner.currentString, scanner.currentInteger)
    }

    ghost predicate Valid()
      reads scanner
    {
      scanner.Valid() && (scanner.currentToken == EndOfInput ==> scanner.Chars() == [])
    }

    /** Whether a nonterminal did what the grammar function says of stream `s`. */
    ghost predicate Did(verdict: Verdict, s: seq<Symbol>, o: Outcome)
      reads scanner
    {
      match verdict
      case Yes => Valid() && o == Found(Rest())
      case No => Valid() && o == Missing && Rest() == s
      case Exit => o == Dead
    }

    constructor (input: string)
      ensures fresh(scanner) && scanner.Valid() && scanner.Chars() == input
      ensures scanner.currentString == "" && scanner.currentInteger == 0
    {
      scanner := new Scanner(input);
    }

    /** Scans on; whatever was the current token is past. */
    method Advance() returns (ok: bool)
      requires scanner.Valid()
      modifies scanner
      ensures Lex(old(scanner.Chars()), old(scanner.currentString), old(scanner.currentInteger))
              == if ok then Rest() else [Abort]
      ensures ok ==> Valid()
    {
      Progress(scanner.Chars(), scanner.currentString, scanner.currentInteger);
      ok := scanner.GetNextToken();
    }

    /** Goes past the current token if it is the one asked for. */
    method Token(token: Token) returns (v: Verdict)
      requires Valid() && token != Identifier
      modifies scanner
      ensures Did(v, old(Rest()), Match(token, old(Rest())))
    {
      hide Lex, Stream;
      if scanner.currentToken != token { return No; }
      if token == EndOfInput {
        EndRepeats(scanner.currentString, scanner.currentInteger);
      } else {
        Splits(Is(token), Lex(scanner.Chars(), scanner.currentString, scanner.currentInteger));
      }
      var ok := Advance();
      return if ok then Yes else Exit;
    }

    lemma CurrentIsFirst()
      ensures Rest()[0] == Is(scanner.currentToken)
    {
    }

    method JSONBoolean() returns (v: Verdict)
      requires Valid()
      modifies scanner
      ensures var s := old(Rest());
              Did(v, s, if s[0] == Is(True) then Match(True, s) else Match(False, s))
    {
      hide Lex, Stream, Rest;
      v := Token(True);
      if v == No { v := Token(False); }
    }

    method JSONMember() returns (v: Verdict)
      requires Valid()
      modifies scanner
      ensures Did(v, old(Rest()), ParseMember(old(Rest())))
      decreases |Rest()|, 2
    {
      hide Lex, Stream, Rest, ParseValue;
      v := Token(String);
      if v != Yes { return; }
      v := Token(Colon);
      if v != Yes { return Exit; }
      v := JSONValue();
      if v != Yes { return Exit; }
    }

    method JSONMemberList() returns (v: Verdict)
      requires Valid()
      modifies scanner
      ensures Did(v, old(Rest()), ParseMembers(old(Rest())))
      decreases |Rest()|, 3
    {
      hide Lex, Stream, Rest;
      v := JSONMember();
      if v != Yes { return; }
      ghost var s := Rest();
      while scanner.currentToken == Comma
        invariant Valid() && v == Yes && MoreMembers(Rest()) == MoreMembers(s) && |Rest()| <= |s|
        decreases |Rest()|
      {
        CurrentIsFirst();
        v := Token(Comma);
        if v == Exit { return; }
        v := JSONMember();
        if v != Yes { return Exit; }
      }
      CurrentIsFirst();
    }

    method JSONList() returns (v: Verdict)
      requires Valid()
      modifies scanner
      ensures Did(v, old(Rest()), ParseItems(old(Rest())))
      decreases |Rest()|, 2
    {
      hide Lex, Stream, Rest;
      v := JSONValue();
      if v != Yes { return; }
      ghost var s := Rest();
      while scanner.currentToken == Comma
        invariant Valid() && v == Yes && MoreItems(Rest()) == MoreItems(s) && |Rest()| <= |s|
        decreases |Rest()|
      {
        CurrentIsFirst();
        v := Token(Comma);
        if v == Exit { return; }
        v := JSONValue();
        if v != Yes { return Exit; }
      }
      CurrentIsFirst();
    }

    method JSONObject() returns (v: Verdict)
      requires Valid()
      modifies scanner
      ensures var s := old(Rest()); Did(v, s, if s[0] == Is(LeftBrace) then ParseObject(s) else Missing)
      decreases |Rest()|, 0
    {
      hide Lex, Stream, Rest, ParseMembers;
      v := Token(LeftBrace);
      if v != Yes { return; }
      v := JSONMemberList();
      if v == Exit { return; }
      v := Token(RightBrace);
      if v != Yes { return Exit; }
    }

    method JSONArray() returns (v: Verdict)
      requires Valid()
      modifies scanner
      ensures var s := old(Rest()); Did(v, s, if s[0] == Is(LeftBracket) then ParseArray(s) else Missing)
      decreases |Rest()|, 0
    {
      hide Lex, Stream, Rest, ParseItems;
      v := Token(LeftBracket);
      if v != Yes { return; }
      v := JSONList();
      if v == Exit { return; }
      v := Token(RightBracket);
      if v != Yes { return Exit; }
    }

    method JSONValue() returns (v: Verdict)
      requires Valid()
      modifies scanner
      ensures Did(v, old(Rest()), ParseValue(old(Rest())))
      decreases |Rest()|, 1
    {
      hide Lex, Stream, Rest, ParseObject, ParseArray;
      CurrentIsFirst();
      v := JSONObject();
      if v == No { v := JSONArray(); }
      if v == No { v := Token(Integer); }
      if v == No { v := JSONBoolean(); }
      if v == No { v := Token(String); }
      if v == No { v := Token(Null); }
    }

    /** Recognises a whole text, or ends the program. */
    method Parse() returns (accepted: bool)
      requires scanner.Valid()
      modifies scanner
      ensures accepted <==> IsText(Lex(old(scanner.Chars()), old(scanner.currentString), old(scanner.currentInteger)))
    {
      hide Stream, Rest, ParseValue;
      var ok := Advance();
      if !ok {
        NoTextAborts();
        return false;
      }
      AcceptsIffText(Rest());
      var v := JSONValue();
      if v != Yes { return false; }
      v := Token(EndOfInput);
      return v == Yes;
    }
  }

  lemma NoTextAborts()
    ensures !IsText([Abort])
  {
    forall v ensures [Abort] != Words(v) + [Is(EndOfInput)] {
      assert |Words(v) + [Is(EndOfInput)]| > 1;
    }
  }

  lemma EndRepeats(text: string, value: int)
    ensures Lex([], text, value) == [Is(EndOfInput)]
  {
    assert Span(Space, []) == 0;
  }

  lemma Splits(first: Symbol, rest: seq<Symbol>)
    requires !Last(first) && Stream(rest)
    ensures ([first] + rest)[1..] == rest && Stream([first] + rest)
    ensures |([first] + rest)| > 1 && ([first] + rest)[1] == rest[0]
  {
  }
}
