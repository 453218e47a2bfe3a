/**
 The tokeniser as a function on the text still to be read, and exactly which texts give which tokens:
 those that spell them out, with blanks and comments in between and nothing run together.
 */
module Lexing {
  import opened Prelude
  import opened Tokens

  predicate Space(c: char) { c == ' ' || 9 as char <= c <= 13 as char }

  predicate Alpha(c: char) { 'A' <= c <= 'Z' || 'a' <= c <= 'z' }

  predicate Digit(c: char) { '0' <= c <= '9' }

  predicate Alnum(c: char) { Alpha(c) || Digit(c) }

  predicate NumberChar(c: char) { Digit(c) || c == '.' }

  predicate LineEnd(c: char) { c == '\n' || c == '\r' }

  function SkipSpace(r: string): (s: string)
    ensures |s| <= |r| && (s == "" || !Space(s[0]))
  {
    if r != "" && Space(r[0]) then SkipSpace(r[1..]) else r
  }

  function SkipComment(r: string): (s: string)
    ensures |s| <= |r| && (s == "" || LineEnd(s[0]))
  {
    if r == "" || LineEnd(r[0]) then r else SkipComment(r[1..])
  }

  /** How many characters at the front satisfy `p`. */
  function Count(p: char -> bool, r: string): (n: nat)
    ensures n <= |r| && (forall i :: 0 <= i < n ==> p(r[i])) && (n < |r| ==> !p(r[n]))
  {
    if r != "" && p(r[0]) then 1 + Count(p, r[1..]) else 0
  }

  function Word(w: string): Token {
    if w == "def" then Def
    else if w == "extern" then Extern
    else if w == "if" then If
    else if w == "then" then Then
    else if w == "else" then Else
    else if w == "for" then For
    else if w == "in" then In
    else if w == "binary" then Binary
    else if w == "unary" then Unary
    else if w == "var" then Var
    else Identifier(w)
  }

  function GetTok(r: string): (k: (Token, string))
    ensures |k.1| <= |r| && (k.0 != Eof ==> |k.1| < |r|) && (k.0 == Eof ==> k.1 == "")
    decreases |r|
  {
    var s := SkipSpace(r);
    if s == "" then (Eof, s)
    else if Alpha(s[0]) then
      var n := Count(Alnum, s);
      (Word(s[..n]), s[n..])
    else if NumberChar(s[0]) then
      var n := Count(NumberChar, s);
      (Number(s[..n]), s[n..])
    else if s[0] == '#' then
      var c := SkipComment(s[1..]);
      if c == "" then (Eof, c) else GetTok(c)
    else (Char(s[0]), s[1..])
  }

  /** All tokens of a text. */
  function Lex(r: string): seq<Token>
    decreases |r|
  {
    var (k, r') := GetTok(r);
    if k == Eof then [] else [k] + Lex(r')
  }

  // ----- Texts and the tokens they spell -----

  datatype Filler = Blank(c: char) | Comment(text: string, end: char)

  predicate FillerOk(f: Filler) {
    match f
    case Blank(c) => Space(c)
    case Comment(text, end) => LineEnd(end) && OneLine(text)
  }

  predicate OneLine(text: string) { forall i :: 0 <= i < |text| ==> !LineEnd(text[i]) }

  function FillerText(f: Filler): string {
    match f
    case Blank(c) => [c]
    case Comment(text, end) => "#" + text + [end]
  }

  function FillersText(fs: seq<Filler>): string {
    if fs == [] then "" else FillerText(fs[0]) + FillersText(fs[1..])
  }

  predicate AllOk(fs: seq<Filler>) { forall i :: 0 <= i < |fs| ==> FillerOk(fs[i]) }

  function Spell(k: Token): string {
    match k
    case Eof => ""
    case Def => "def"
    case Extern => "extern"
    case Identifier(name) => name
    case Number(text) => text
    case If => "if"
    case Then => "then"
    case Else => "else"
    case For => "for"
    case In => "in"
    case Binary => "binary"
    case Unary => "unary"
    case Var => "var"
    case Char(c) => [c]
  }

  predicate All(p: char -> bool, s: string) { forall i :: 0 <= i < |s| ==> p(s[i]) }

  predicate WordLike(w: string) { w != "" && Alpha(w[0]) && All(Alnum, w) }

  /** The tokens that have a spelling. */
  predicate Spellable(k: Token) {
    match k
    case Eof => false
    case Identifier(name) => WordLike(name) && Word(name) == k
    case Number(text) => text != "" && All(NumberChar, text)
    case Char(c) => !Space(c) && !Alpha(c) && !NumberChar(c) && c != '#'
    case _ => true
  }

  /** Whether a token would take in the character after it. */
  predicate Continues(k: Token, c: char) {
    match k
    case Char(_) => false
    case Number(_) => NumberChar(c)
    case _ => Alnum(c)
  }

  predicate EndsBefore(k: Token, s: string) { s != "" ==> !Continues(k, s[0]) }

  datatype Piece = Piece(before: seq<Filler>, tok: Token)

  /**
   A text: tokens with what stands before each, what stands after the last, and perhaps a comment that is
   not ended.
   */
  datatype Layout = Layout(pieces: seq<Piece>, after: seq<Filler>, open: Option<string>)

  function Render(l: Layout): string
    decreases |l.pieces|
  {
    if l.pieces == [] then FillersText(l.after) + (if l.open.Some? then "#" + l.open.value else "")
    else FillersText(l.pieces[0].before) + (Spell(l.pieces[0].tok) + Render(l.(pieces := l.pieces[1..])))
  }

  function TokensOf(l: Layout): (s: seq<Token>)
    decreases |l.pieces|
  {
    if l.pieces == [] then [] else [l.pieces[0].tok] + TokensOf(l.(pieces := l.pieces[1..]))
  }

  predicate LayoutOk(l: Layout)
    decreases |l.pieces|
  {
    if l.pieces == [] then AllOk(l.after) && (l.open.Some? ==> OneLine(l.open.value))
    else
      var rest := l.(pieces := l.pieces[1..]);
      AllOk(l.pieces[0].before) && Spellable(l.pieces[0].tok) && EndsBefore(l.pieces[0].tok, Render(rest))
          && LayoutOk(rest)
  }

  // ----- Reading a text back -----

  lemma {:induction false} CommentSkipped(text: string, rest: string)
    requires OneLine(text) && (rest == "" || LineEnd(rest[0]))
    ensures SkipComment(text + rest) == rest
  {
    if text == "" {
      assert text + rest == rest;
    } else {
      assert (text + rest)[1..] == text[1..] + rest;
      CommentSkipped(text[1..], rest);
    }
  }

  lemma SpaceSkipped(c: char, r: string)
    requires Space(c)
    ensures GetTok([c] + r) == GetTok(r)
  {
    assert ([c] + r)[1..] == r;
    assert SkipSpace([c] + r) == SkipSpace(r);
  }

  lemma FillerSkipped(f: Filler, r: string)
    requires FillerOk(f)
    ensures GetTok(FillerText(f) + r) == GetTok(r)
  {
    match f
    case Blank(c) => SpaceSkipped(c, r);
    case Comment(text, end) =>
      var s := "#" + text + [end] + r;
      assert s[1..] == text + ([end] + r);
      CommentSkipped(text, [end] + r);
      assert SkipSpace(s) == s;
      assert GetTok(s) == GetTok([end] + r);
      SpaceSkipped(end, r);
  }

  lemma {:induction false} FillersSkipped(fs: seq<Filler>, r: string)
    requires AllOk(fs)
    ensures GetTok(FillersText(fs) + r) == GetTok(r)
  {
    if fs == [] {
      assert "" + r == r;
    } else {
      assert FillersText(fs) + r == FillerText(fs[0]) + (FillersText(fs[1..]) + r);
      FillerSkipped(fs[0], FillersText(fs[1..]) + r);
      FillersSkipped(fs[1..], r);
    }
  }

  lemma {:induction false} CountExact(p: char -> bool, w: string, rest: string)
    requires All(p, w) && (rest != "" ==> !p(rest[0]))
    ensures Count(p, w + rest) == |w|
  {
    if w == "" {
      assert w + rest == rest;
    } else {
      assert (w + rest)[1..] == w[1..] + rest;
      CountExact(p, w[1..], rest);
    }
  }

  lemma SpelledWord(k: Token)
    requires Spellable(k) && !k.Char? && !k.Number?
    ensures WordLike(Spell(k)) && Word(Spell(k)) == k
  {
  }

  /** A spelled token is read back. */
  lemma SpelledRead(k: Token, rest: string)
    requires Spellable(k) && EndsBefore(k, rest)
    ensures GetTok(Spell(k) + rest) == (k, rest)
  {
    var s := Spell(k) + rest;
    if k.Char? {
      assert s[1..] == rest;
      assert SkipSpace(s) == s;
    } else if k.Number? {
      CountExact(NumberChar, k.text, rest);
      assert s[..|k.text|] == k.text && s[|k.text|..] == rest;
      assert SkipSpace(s) == s;
    } else {
      hide Spell, Word, Spellable;
      SpelledWord(k);
      var w := Spell(k);
      CountExact(Alnum, w, rest);
      assert s[..|w|] == w && s[|w|..] == rest;
      assert SkipSpace(s) == s;
    }
  }

  lemma NothingLeft(l: Layout)
    requires l.pieces == [] && LayoutOk(l)
    ensures GetTok(Render(l)) == (Eof, "")
  {
    var tail := if l.open.Some? then "#" + l.open.value else "";
    FillersSkipped(l.after, tail);
    if l.open.Some? {
      assert tail[1..] == l.open.value + "";
      CommentSkipped(l.open.value, "");
      assert SkipSpace(tail) == tail;
    }
  }

  /** A text gives the tokens it spells, whatever blanks and comments it has. */
  lemma {:induction false} LexRender(l: Layout)
    requires LayoutOk(l)
    ensures Lex(Render(l)) == TokensOf(l)
    decreases |l.pieces|
  {
    hide GetTok, Spell, Spellable;
    if l.pieces == [] {
      NothingLeft(l);
    } else {
      var rest := l.(pieces := l.pieces[1..]);
      var k := l.pieces[0].tok;
      FillersSkipped(l.pieces[0].before, Spell(k) + Render(rest));
      SpelledRead(k, Render(rest));
      assert k != Eof by { NotEof(k); }
      LexRender(rest);
    }
  }

  lemma NotEof(k: Token)
    requires Spellable(k)
    ensures k != Eof
  {
  }

  // ----- Every text has a layout -----

  lemma {:induction false} CommentSplit(r: string) returns (text: string)
    ensures OneLine(text) && r == text + SkipComment(r)
  {
    if r == "" || LineEnd(r[0]) {
      text := "";
    } else {
      var t := CommentSplit(r[1..]);
      text := [r[0]] + t;
      Longer(r, t, SkipComment(r[1..]));
    }
  }

  lemma Longer(r: string, t: string, rest: string)
    requires r != "" && !LineEnd(r[0]) && OneLine(t) && r[1..] == t + rest
    ensures OneLine([r[0]] + t) && r == [r[0]] + t + rest
  {
    assert r == [r[0]] + (t + rest);
  }

  /** A token that is read has a spelling, and what follows does not continue it. */
  lemma TokenRead(r: string)
    requires r != "" && !Space(r[0]) && r[0] != '#'
    ensures var (k, rest) := GetTok(r); Spellable(k) && EndsBefore(k, rest) && r == Spell(k) + rest
  {
    hide GetTok, Count, Word, Spell, Spellable, EndsBefore;
    TokenStart(r);
    if Alpha(r[0]) {
      WordRead(r);
    } else if NumberChar(r[0]) {
      NumberRead(r);
    } else {
      CharRead(r);
    }
  }

  lemma NumberRead(r: string)
    requires r != "" && NumberChar(r[0])
    ensures var n := Count(NumberChar, r);
            Spellable(Number(r[..n])) && EndsBefore(Number(r[..n]), r[n..]) && r == Spell(Number(r[..n])) + r[n..]
  {
    hide Count;
    var n := Count(NumberChar, r);
    assert r == r[..n] + r[n..];
  }

  lemma CharRead(r: string)
    requires r != "" && !Space(r[0]) && r[0] != '#' && !Alpha(r[0]) && !NumberChar(r[0])
    ensures Spellable(Char(r[0])) && EndsBefore(Char(r[0]), r[1..]) && r == Spell(Char(r[0])) + r[1..]
  {
    assert r == [r[0]] + r[1..];
  }

  lemma TokenStart(r: string)
    requires r != "" && !Space(r[0]) && r[0] != '#'
    ensures GetTok(r) == if Alpha(r[0]) then (Word(r[..Count(Alnum, r)]), r[Count(Alnum, r)..])
                         else if NumberChar(r[0]) then (Number(r[..Count(NumberChar, r)]), r[Count(NumberChar, r)..])
                         else (Char(r[0]), r[1..])
  {
    hide Word, Count;
    assert SkipSpace(r) == r;
  }

  lemma WordRead(r: string)
    requires r != "" && Alpha(r[0])
    ensures var (k, rest) := (Word(r[..Count(Alnum, r)]), r[Count(Alnum, r)..]);
            Spellable(k) && EndsBefore(k, rest) && r == Spell(k) + rest
  {
    hide Word, Spell, Spellable, Count;
    var n := Count(Alnum, r);
    assert Alnum(r[0]);
    WordSpelled(r[..n]);
    assert r == r[..n] + r[n..];
  }

  lemma WordSpelled(w: string)
    requires WordLike(w)
    ensures Spellable(Word(w)) && Spell(Word(w)) == w && !Word(w).Char? && !Word(w).Number?
  {
  }

  lemma {:induction false} LayoutFor(r: string) returns (l: Layout)
    ensures LayoutOk(l) && Render(l) == r
    decreases |r|
  {
    hide GetTok, Spellable, Spell, EndsBefore;
    if r == "" {
      l := Layout([], [], None);
    } else if Space(r[0]) {
      var m := LayoutFor(r[1..]);
      l := AddFiller(Blank(r[0]), m);
      assert r == [r[0]] + r[1..];
    } else if r[0] == '#' {
      var text := CommentSplit(r[1..]);
      var c := SkipComment(r[1..]);
      if c == "" {
        l := OpenComment(r, text);
      } else {
        var m := LayoutFor(c[1..]);
        l := AddFiller(Comment(text, c[0]), m);
        CommentText(r, text, c);
      }
    } else {
      TokenRead(r);
      var (k, rest) := GetTok(r);
      var m := LayoutFor(rest);
      l := AddToken(k, m);
    }
  }

  lemma OpenComment(r: string, text: string) returns (l: Layout)
    requires r != "" && r[0] == '#' && OneLine(text) && r[1..] == text + ""
    ensures LayoutOk(l) && Render(l) == r
  {
    l := Layout([], [], Some(text));
    assert r == "#" + r[1..];
    assert text + "" == text;
    assert FillersText([]) + ("#" + text) == "#" + text;
  }

  lemma CommentText(r: string, text: string, c: string)
    requires r != "" && r[0] == '#' && c != "" && r[1..] == text + c
    ensures r == FillerText(Comment(text, c[0])) + c[1..]
  {
    assert r == "#" + r[1..];
    assert c == [c[0]] + c[1..];
    assert "#" + text + [c[0]] + c[1..] == "#" + (text + c);
  }

  lemma AddToken(k: Token, m: Layout) returns (l: Layout)
    requires LayoutOk(m) && Spellable(k) && EndsBefore(k, Render(m))
    ensures LayoutOk(l) && Render(l) == Spell(k) + Render(m)
  {
    hide Spellable, Spell, EndsBefore;
    l := m.(pieces := [Piece([], k)] + m.pieces);
    assert l.pieces[1..] == m.pieces && l.(pieces := l.pieces[1..]) == m;
    assert FillersText([]) + (Spell(k) + Render(m)) == Spell(k) + Render(m);
  }

  lemma AddFiller(f: Filler, m: Layout) returns (l: Layout)
    requires FillerOk(f) && LayoutOk(m)
    ensures LayoutOk(l) && Render(l) == FillerText(f) + Render(m)
  {
    hide FillerText, FillerOk, Spell, Spellable;
    if m.pieces == [] {
      l := m.(after := [f] + m.after);
      FillersCons(f, m.after, if m.open.Some? then "#" + m.open.value else "");
    } else {
      var p := m.pieces[0];
      l := m.(pieces := [Piece([f] + p.before, p.tok)] + m.pieces[1..]);
      assert l.(pieces := l.pieces[1..]) == m.(pieces := m.pieces[1..]);
      FillersCons(f, p.before, Spell(p.tok) + Render(m.(pieces := m.pieces[1..])));
    }
  }

  lemma FillersCons(f: Filler, fs: seq<Filler>, r: string)
    ensures FillersText([f] + fs) + r == FillerText(f) + (FillersText(fs) + r)
  {
    assert ([f] + fs)[1..] == fs;
    assert FillersText([f] + fs) == FillerText(f) + FillersText(fs);
  }

  /** The texts of a token sequence are its layouts, and no others. */
  lemma LexIff(r: string, s: seq<Token>)
    ensures Lex(r) == s <==> exists l: Layout :: LayoutOk(l) && Render(l) == r && TokensOf(l) == s
  {
    hide Lex, Render, LayoutOk, TokensOf;
    if Lex(r) == s {
      var l := LayoutFor(r);
      LexRender(l);
    }
    if l: Layout :| LayoutOk(l) && Render(l) == r && TokensOf(l) == s {
      LexRender(l);
    }
  }

  // ----- What the first character decides -----

  const KEYWORDS := ["def", "extern", "if", "then", "else", "for", "in", "binary", "unary", "var"]

  /** A letter starts the longest run of letters and digits, which is a name unless it is a keyword. */
  lemma LetterStartsWord(w: string, rest: string)
    requires w != "" && ('a' <= w[0] <= 'z' || 'A' <= w[0] <= 'Z')
    requires forall i :: 0 <= i < |w| ==> 'a' <= w[i] <= 'z' || 'A' <= w[i] <= 'Z' || '0' <= w[i] <= '9'
    requires rest != ""
             ==> !('a' <= rest[0] <= 'z') && !('A' <= rest[0] <= 'Z') && !('0' <= rest[0] <= '9')
    ensures GetTok(w + rest).1 == rest
    ensures w !in KEYWORDS <==> GetTok(w + rest).0 == Identifier(w)
    ensures w in KEYWORDS ==> Spell(GetTok(w + rest).0) == w && !GetTok(w + rest).0.Identifier?
  {
    assert WordLike(w);
    WordSpelled(w);
    SpelledRead(Word(w), rest);
  }

  /** A digit or a point starts the longest run of digits and points. */
  lemma DigitStartsNumber(w: string, rest: string)
    requires w != "" && forall i :: 0 <= i < |w| ==> '0' <= w[i] <= '9' || w[i] == '.'
    requires rest != "" ==> !('0' <= rest[0] <= '9') && rest[0] != '.'
    ensures GetTok(w + rest) == (Number(w), rest)
  {
    SpelledRead(Number(w), rest);
  }

  /** Blanks, and a `#` with the rest of its line, are passed over; any other character is a token of its own. */
  lemma OtherCharacters(c: char, rest: string, text: string)
    requires !('a' <= c <= 'z') && !('A' <= c <= 'Z') && !('0' <= c <= '9') && c != '.'
    requires forall i :: 0 <= i < |text| ==> text[i] != '\n' && text[i] != '\r'
    ensures if c in {' ', '\t', '\n', 11 as char, 12 as char, '\r'} then GetTok([c] + rest) == GetTok(rest)
            else if c == '#' then GetTok([c] + text + ['\n'] + rest) == GetTok(rest) && GetTok([c] + text) == (Eof, "")
            else GetTok([c] + rest) == (Char(c), rest)
  {
    if Space(c) {
      SpaceSkipped(c, rest);
    } else if c == '#' {
      FillerSkipped(Comment(text, '\n'), rest);
      assert SkipSpace([c] + text) == [c] + text && ([c] + text)[1..] == text;
      CommentSkipped(text, "");
      assert text + "" == text;
    } else {
      SpelledRead(Char(c), rest);
    }
  }
}
