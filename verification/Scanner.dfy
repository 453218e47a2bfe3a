/** The tokeniser as it runs: one character of look-ahead, and the text of the last identifier and number. */
module Scanner {
  import opened Prelude
  import opened Tokens
  import opened Lexing

  /** The next character goes from what is left to what has been read. */
  lemma OneMore(p: char -> bool, w: string, r: string)
    requires (w == "" || All(p, w)) && r != "" && p(r[0])
    ensures All(p, w + [r[0]]) && w + r == (w + [r[0]]) + r[1..]
  {
  }

  class Lexer {
    var input: string
    /** The look-ahead character; `None` stands for the end of the input. */
    var lastChar: Option<char>
    var identifier: string
    var number: string

    ghost predicate Valid()
      reads this
    {
      lastChar.None? ==> input == ""
    }

    function Remaining(): string
      reads this
    {
      if lastChar.None? then "" else [lastChar.value] + input
    }

    constructor (text: string)
      ensures Valid() && Remaining() == " " + text
    {
      input, lastChar, identifier, number := text, Some(' '), "", "";
    }

    method Advance()
      requires Valid() && lastChar.Some?
      modifies this`input, this`lastChar
      ensures Valid() && Remaining() == old(Remaining())[1..]
    {
      if input == "" {
        lastChar := None;
      } else {
        lastChar, input := Some(input[0]), input[1..];
      }
    }

    method SkipBlanks()
      requires Valid()
      modifies this`input, this`lastChar
      ensures Valid() && Remaining() == SkipSpace(old(Remaining()))
    {
      while lastChar.Some? && Space(lastChar.value)
        invariant Valid() && SkipSpace(Remaining()) == SkipSpace(old(Remaining()))
        decreases |Remaining()|
      {
        Advance();
      }
    }

    method ReadWord() returns (k: Token)
      requires Valid() && lastChar.Some? && Alpha(lastChar.value)
      modifies this`input, this`lastChar, this`identifier
      ensures Valid() && (k, Remaining()) == GetTok(old(Remaining()))
      ensures (k.Identifier? ==> k.name == identifier) && !k.Number?
    {
      hide GetTok, Count, Word, All;
      ghost var s := Remaining();
      OneMore(Alnum, "", s);
      assert "" + [s[0]] == [lastChar.value];
      identifier := [lastChar.value];
      Advance();
      while lastChar.Some? && Alnum(lastChar.value)
        invariant Valid() && identifier != "" && All(Alnum, identifier) && s == identifier + Remaining()
        decreases |Remaining()|
      {
        OneMore(Alnum, identifier, Remaining());
        identifier := identifier + [lastChar.value];
        Advance();
      }
      CountExact(Alnum, identifier, Remaining());
      TokenStart(s);
      k := Word(identifier);
      WordNames(identifier);
    }

    method ReadNumber() returns (k: Token)
      requires Valid() && lastChar.Some? && NumberChar(lastChar.value)
      modifies this`input, this`lastChar, this`number
      ensures Valid() && (k, Remaining()) == GetTok(old(Remaining()))
      ensures k == Number(number)
    {
      hide GetTok, Count, All;
      ghost var s := Remaining();
      OneMore(NumberChar, "", s);
      assert "" + [s[0]] == [lastChar.value];
      number := [lastChar.value];
      Advance();
      while lastChar.Some? && NumberChar(lastChar.value)
        invariant Valid() && All(NumberChar, number) && s == number + Remaining()
        decreases |Remaining()|
      {
        OneMore(NumberChar, number, Remaining());
        number := number + [lastChar.value];
        Advance();
      }
      CountExact(NumberChar, number, Remaining());
      TokenStart(s);
      k := Number(number);
    }

    /** From `#` up to the end of the line, which is left. */
    method DropComment()
      requires Valid() && lastChar.Some?
      modifies this`input, this`lastChar
      ensures Valid() && Remaining() == SkipComment(old(Remaining())[1..])
    {
      Advance();
      while lastChar.Some? && !LineEnd(lastChar.value)
        invariant Valid() && SkipComment(Remaining()) == SkipComment(old(Remaining())[1..])
        decreases |Remaining()|
      {
        Advance();
      }
    }

    method GetToken() returns (k: Token)
      requires Valid()
      modifies this
      ensures Valid() && (k, Remaining()) == GetTok(old(Remaining()))
      ensures (k.Identifier? ==> identifier == k.name) && (k.Number? ==> number == k.text)
      decreases |Remaining()|
    {
      hide GetTok;
      ghost var r := Remaining();
      SkipBlanks();
      SameToken(r);
      ghost var s := Remaining();
      if lastChar.None? {
        return Eof;
      }
      var c := lastChar.value;
      if Alpha(c) {
        k := ReadWord();
      } else if NumberChar(c) {
        k := ReadNumber();
      } else if c == '#' {
        DropComment();
        CommentToken(s);
        if lastChar.Some? {
          k := GetToken();
        } else {
          k := Eof;
        }
      } else {
        TokenStart(s);
        k := Char(c);
        Advance();
      }
    }
  }

  lemma WordNames(w: string)
    ensures Word(w).Identifier? ==> Word(w).name == w
    ensures !Word(w).Number?
  {
  }

  lemma SameToken(r: string)
    ensures GetTok(SkipSpace(r)) == GetTok(r) && (SkipSpace(r) == "" ==> GetTok(r) == (Eof, ""))
  {
    assert SkipSpace(SkipSpace(r)) == SkipSpace(r);
  }

  lemma CommentToken(s: string)
    requires s != "" && s[0] == '#'
    ensures var c := SkipComment(s[1..]); GetTok(s) == if c == "" then (Eof, "") else GetTok(c)
  {
    assert SkipSpace(s) == s;
  }
}
