/** The shell's lexer and parser (shell/lexer.cc, shell/parser.cc). */
module Shell {
  import opened Sums

  datatype Token = Eof | Identifier(text: string) | Pipe

  // ----- the token stream -----

  const FORM_FEED: char := '\U{000C}'
  const VERTICAL_TAB: char := '\U{000B}'

  predicate IsSpace(c: char) {
    c == ' ' || c == FORM_FEED || c == '\n' || c == '\r' || c == '\t' || c == VERTICAL_TAB
  }

  // The terminator of the string that is searched counts as found, so NUL is not in words either.
  predicate IsIdentifier(c: char) {
    c != ' ' && c != '|' && c != '\n' && c != '\0'
  }

  function WordLength(s: string): (n: nat)
    ensures n <= |s| && (forall i :: 0 <= i < n ==> IsIdentifier(s[i])) && (n < |s| ==> !IsIdentifier(s[n]))
  {
    if s != "" && IsIdentifier(s[0]) then 1 + WordLength(s[1..]) else 0
  }

  /** The first token of a text, and the text after it. */
  function First(s: string): (r: (Token, string))
    ensures |r.1| <= |s| && (!r.0.Eof? ==> |r.1| < |s|)
  {
    if s == "" then (Eof, "")
    else if IsSpace(s[0]) then First(s[1..])
    else if s[0] == '|' then (Pipe, s[1..])
    else if IsIdentifier(s[0]) then (Identifier(s[..WordLength(s)]), s[WordLength(s)..])
    else (Eof, s[1..])
  }

  lemma FirstSkips(s: string)
    requires s != "" && IsSpace(s[0])
    ensures First(s) == First(s[1..])
  {
  }

  lemma FirstHere(s: string)
    requires s != "" ==> !IsSpace(s[0])
    ensures First(s) ==
      if s == "" then (Eof, "")
      else if s[0] == '|' then (Pipe, s[1..])
      else if IsIdentifier(s[0]) then (Identifier(s[..WordLength(s)]), s[WordLength(s)..])
      else (Eof, s[1..])
  {
  }

  /** Whether the lexer complains instead of giving a token: it comes to a NUL. */
  function Complains(s: string): bool {
    s != "" && if IsSpace(s[0]) then Complains(s[1..]) else s[0] == '\0'
  }

  lemma ComplainsSkips(s: string)
    requires s != "" && IsSpace(s[0])
    ensures Complains(s) == Complains(s[1..])
  {
  }

  lemma ComplainsHere(s: string)
    requires s != "" ==> !IsSpace(s[0])
    ensures Complains(s) <==> s != "" && s[0] != '|' && !IsIdentifier(s[0])
  {
  }

  /** A NUL stays ahead until the lexer comes to it. */
  lemma {:induction false} NulAhead(s: string)
    ensures First(s).0.Eof? ==> (Complains(s) <==> '\0' in s)
    ensures !First(s).0.Eof? ==> !Complains(s) && ('\0' in s <==> '\0' in First(s).1)
  {
    if s != "" && IsSpace(s[0]) {
      NulAhead(s[1..]);
      assert s == [s[0]] + s[1..];
    } else if s != "" && s[0] != '|' && IsIdentifier(s[0]) {
      assert s == s[..WordLength(s)] + s[WordLength(s)..];
      assert '\0' !in s[..WordLength(s)];
    } else if s != "" {
      assert s == [s[0]] + s[1..];
    }
  }

  // A word is as long as its characters go.
  lemma WordEnds(s: string, n: nat)
    requires n <= |s| && (forall i :: 0 <= i < n ==> IsIdentifier(s[i])) && (n < |s| ==> !IsIdentifier(s[n]))
    ensures WordLength(s) == n
  {
  }

  /** All tokens up to the first end. */
  function Tokens(s: string): (ts: seq<Token>)
    ensures forall i :: 0 <= i < |ts| ==> !ts[i].Eof?
    decreases |s|
  {
    var (token, rest) := First(s);
    if token.Eof? then [] else [token] + Tokens(rest)
  }

  lemma TokensStep(s: string)
    ensures Tokens(s) == if First(s).0.Eof? then [] else [First(s).0] + Tokens(First(s).1)
  {
  }

  class Lexer {
    const source: string
    var position: nat
    var peekToken: Token
    var peekReady: bool
    var warned: bool
    ghost var rest: string
    ghost var said: bool

    /** With its one-token buffer the lexer stands at `rest` of the plain token stream, and `said` is whether
        there was a complaint before that. */
    ghost predicate Valid()
      reads this
    {
      && position <= |source|
      && (!peekReady ==> rest == source[position..])
      && (peekReady ==> First(rest) == (peekToken, source[position..]))
      && (warned <==> said || (peekReady && Complains(rest)))
    }

    constructor (source: string)
      ensures Valid() && rest == source && this.source == source && !said
    {
      this.source := source;
      position, peekToken, peekReady, rest := 0, Eof, false, source;
      warned, said := false, false;
    }

    method SkipSpaces()
      requires position <= |source|
      modifies this`position
      ensures old(position) <= position <= |source| && First(source[old(position)..]) == First(source[position..])
      ensures position < |source| ==> !IsSpace(source[position])
      ensures Complains(source[old(position)..]) == Complains(source[position..])
    {
      hide First, Complains;
      while position != |source| && IsSpace(source[position])
        invariant old(position) <= position <= |source| && First(source[old(position)..]) == First(source[position..])
        invariant Complains(source[old(position)..]) == Complains(source[position..])
      {
        FirstSkips(source[position..]);
        ComplainsSkips(source[position..]);
        assert source[position..][1..] == source[position + 1..];
        position := position + 1;
      }
    }

    // The rest of a word whose first character has been read.
    method ReadWord(ch: char) returns (word: string)
      requires 0 < position <= |source| && ch == source[position - 1] && IsIdentifier(ch)
      modifies this`position
      ensures position <= |source|
      ensures var s := source[old(position) - 1..];
        word == s[..WordLength(s)] && source[position..] == s[WordLength(s)..]
    {
      ghost var start := position - 1;
      word := [ch];
      while position != |source| && IsIdentifier(source[position])
        invariant start < position <= |source| && word == source[start..position]
        invariant forall i :: start <= i < position ==> IsIdentifier(source[i])
      {
        word := word + [source[position]];
        position := position + 1;
      }
      WordEnds(source[start..], position - start);
    }

    method NextToken() returns (token: Token)
      requires position <= |source|
      modifies this`position, this`warned
      ensures position <= |source| && First(source[old(position)..]) == (token, source[position..])
      ensures warned <==> old(warned) || Complains(source[old(position)..])
    {
      hide First, WordLength, Complains;
      SkipSpaces();
      FirstHere(source[position..]);
      ComplainsHere(source[position..]);
      if position == |source| {
        return Eof;
      }
      assert source[position..][1..] == source[position + 1..];
      var ch := source[position];
      position := position + 1;
      if ch == '|' {
        return Pipe;
      }
      if IsIdentifier(ch) {
        var word := ReadWord(ch);
        return Identifier(word);
      }
      warned := true;
      return Eof;
    }

    /** next: the next token of the plain stream, buffered or not. */
    method Next() returns (token: Token)
      requires Valid()
      modifies this
      ensures Valid() && (token, rest) == First(old(rest)) && said == (old(said) || Complains(old(rest)))
      ensures !peekReady
    {
      said := said || Complains(rest);
      if peekReady {
        peekReady := false;
        token, rest := peekToken, source[position..];
        return;
      }
      token := NextToken();
      rest := source[position..];
    }

    /** peek: the same token, which stays the next one. */
    method Peek() returns (token: Token)
      requires Valid()
      modifies this
      ensures Valid() && rest == old(rest) && token == First(rest).0 && said == old(said)
    {
      if !peekReady {
        peekReady := true;
        peekToken := NextToken();
      }
      token := peekToken;
    }
  }

  // ----- commands -----

  datatype Node = Command(words: seq<string>) | Piped(lhs: Node, rhs: Node)

  /** The shape that is parsed: commands of at least one word, nested to the right. */
  predicate RightNested(n: Node) {
    match n
    case Command(words) => words != []
    case Piped(lhs, rhs) => lhs.Command? && lhs.words != [] && RightNested(rhs)
  }

  function Words(words: seq<string>): (ts: seq<Token>)
    ensures |ts| == |words| && forall i :: 0 <= i < |ts| ==> ts[i] == Identifier(words[i])
  {
    seq(|words|, i requires 0 <= i < |words| => Identifier(words[i]))
  }

  /** The tokens that a node stands for. */
  function Yield(n: Node): seq<Token> {
    match n
    case Command(words) => Words(words)
    case Piped(lhs, rhs) => Yield(lhs) + [Pipe] + Yield(rhs)
  }

  /** Token sequences without an empty command. */
  predicate Pipeline(ts: seq<Token>) {
    && ts != [] && ts[0].Identifier? && ts[|ts| - 1].Identifier?
    && forall i :: 0 <= i < |ts| - 1 ==> ts[i].Identifier? || ts[i + 1].Identifier?
  }

  lemma PipelineTail(words: seq<string>, rest: seq<Token>)
    requires words != [] && (rest != [] ==> rest[0] == Pipe)
    ensures rest == [] ==> Pipeline(Words(words) + rest)
    ensures rest != [] ==> (Pipeline(Words(words) + rest) <==> Pipeline(rest[1..]))
  {
    var ts, n := Words(words) + rest, |words|;
    if rest != [] {
      assert ts[n] == Pipe && ts[n + 1..] == rest[1..];
      if Pipeline(ts) {
        assert ts[n].Identifier? || ts[n + 1].Identifier?;
        forall i | 0 <= i < |rest[1..]| - 1 ensures rest[1..][i].Identifier? || rest[1..][i + 1].Identifier? {
          assert ts[n + 1 + i] == rest[1..][i] && ts[n + 1 + i + 1] == rest[1..][i + 1];
        }
      }
      if Pipeline(rest[1..]) {
        forall i | 0 <= i < |ts| - 1 ensures ts[i].Identifier? || ts[i + 1].Identifier? {
          assert i > n ==> ts[i] == rest[1..][i - n - 1] && ts[i + 1] == rest[1..][i - n];
        }
      }
    }
  }

  // The first pipe has one place.
  lemma SamePlace(ts: seq<Token>, p: nat, q: nat)
    requires p <= |ts| && (forall i :: 0 <= i < p ==> ts[i].Identifier?) && (p < |ts| ==> ts[p] == Pipe)
    requires q <= |ts| && (forall i :: 0 <= i < q ==> ts[i].Identifier?) && (q < |ts| ==> ts[q] == Pipe)
    ensures p == q
  {
  }

  /** Different nodes of this shape stand for different tokens. */
  lemma {:induction false} YieldInjective(m: Node, n: Node)
    requires RightNested(m) && RightNested(n) && Yield(m) == Yield(n)
    ensures m == n
  {
    var a, b := if m.Command? then m.words else m.lhs.words, if n.Command? then n.words else n.lhs.words;
    var ts := Yield(m);
    SamePlace(ts, |a|, |b|);
    assert forall i :: 0 <= i < |a| ==> ts[i] == Identifier(a[i]) && ts[i] == Identifier(b[i]);
    assert a == b;
    if m.Piped? && n.Piped? {
      assert Yield(m.rhs) == ts[|a| + 1..] == Yield(n.rhs);
      YieldInjective(m.rhs, n.rhs);
    }
  }

  class Parser {
    const lexer: Lexer

    constructor (lexer: Lexer)
      ensures this.lexer == lexer
    {
      this.lexer := lexer;
    }

    method ConsumeIdentifier() returns (r: Option<string>)
      requires lexer.Valid()
      modifies lexer
      ensures lexer.Valid()
      ensures var (token, rest) := First(old(lexer.rest));
        if token.Identifier? then r == Some(token.text) && lexer.rest == rest
        else r == None && lexer.rest == old(lexer.rest)
      ensures lexer.said == old(lexer.said) && ('\0' in lexer.rest <==> '\0' in old(lexer.rest))
    {
      NulAhead(lexer.rest);
      var token := lexer.Peek();
      if token.Identifier? {
        var next := lexer.Next();
        return Some(next.text);
      }
      return None;
    }

    method ConsumePipe() returns (b: bool)
      requires lexer.Valid()
      modifies lexer
      ensures lexer.Valid()
      ensures var (token, rest) := First(old(lexer.rest));
        if token == Pipe then b && lexer.rest == rest else !b && lexer.rest == old(lexer.rest)
      ensures lexer.said == old(lexer.said) && ('\0' in lexer.rest <==> '\0' in old(lexer.rest))
    {
      NulAhead(lexer.rest);
      var token := lexer.Peek();
      if token == Pipe {
        var _ := lexer.Next();
        return true;
      }
      return false;
    }

    /** parse_list: as many words as there are. None stands for the complaint of expect and the failed
        assertion on the text of a token that is not a word. */
    method ParseList() returns (r: Option<seq<string>>)
      requires lexer.Valid()
      modifies lexer
      ensures lexer.Valid() && |lexer.rest| <= old(|lexer.rest|)
      ensures var ts := Tokens(old(lexer.rest));
        match r
        case None => ts == [] || ts[0] == Pipe
        case Some(words) =>
          && words != [] && ts == Words(words) + Tokens(lexer.rest)
          && !First(lexer.rest).0.Identifier?
          && lexer.said == old(lexer.said) && ('\0' in lexer.rest <==> '\0' in old(lexer.rest))
    {
      hide Tokens, First, Words, Complains;
      TokensStep(lexer.rest);
      NulAhead(lexer.rest);
      var first := lexer.Next();
      if !first.Identifier? {
        return None;
      }
      var words := [first.text];
      ghost var ts := Tokens(old(lexer.rest));
      assert Words(words) == [first];
      var more := true;
      while more
        invariant lexer.Valid() && words != [] && ts == Words(words) + Tokens(lexer.rest)
        invariant |lexer.rest| < old(|lexer.rest|) && (!more ==> !First(lexer.rest).0.Identifier?)
        invariant lexer.said == old(lexer.said) && ('\0' in lexer.rest <==> '\0' in old(lexer.rest))
        decreases |lexer.rest|, more
      {
        ghost var before, rest := words, lexer.rest;
        TokensStep(rest);
        var identifier := ConsumeIdentifier();
        if identifier.Some? {
          words := words + [identifier.value];
          assert Words(words) == Words(before) + [First(rest).0];
        } else {
          more := false;
        }
      }
      return Some(words);
    }

    /** parse_pipe: the node of the right-nested shape that stands for the remaining tokens; there is one
        exactly when no command among them is empty. */
    method ParsePipe() returns (r: Option<Node>)
      requires lexer.Valid()
      modifies lexer
      ensures lexer.Valid()
      ensures r.Some? <==> Pipeline(Tokens(old(lexer.rest)))
      ensures r.Some? ==>
        && RightNested(r.value) && Yield(r.value) == Tokens(old(lexer.rest)) && First(lexer.rest).0 == Eof
        && lexer.said == old(lexer.said) && ('\0' in lexer.rest <==> '\0' in old(lexer.rest))
      decreases |lexer.rest|
    {
      var list := ParseList();
      if list.None? {
        return None;
      }
      ghost var rest := lexer.rest;
      PipelineTail(list.value, Tokens(rest));
      var piped := ConsumePipe();
      if !piped {
        return Some(Command(list.value));
      }
      assert Tokens(rest) == [Pipe] + Tokens(lexer.rest);
      var rhs := ParsePipe();
      if rhs.None? {
        return None;
      }
      r := Some(Piped(Command(list.value), rhs.value));
    }

    /** parse: there is no complaint about a token that is left over. Without a tree expect has complained;
        with one the lexer has, exactly when it came to a NUL, and what follows that is dropped. */
    method Parse() returns (r: Option<Node>, complained: bool)
      requires lexer.Valid()
      modifies lexer
      ensures r.Some? <==> Pipeline(Tokens(old(lexer.rest)))
      ensures r.Some? ==> RightNested(r.value) && Yield(r.value) == Tokens(old(lexer.rest))
      ensures complained <==> r.None? || old(lexer.said) || '\0' in old(lexer.rest)
    {
      r := ParsePipe();
      if r.None? {
        return None, true;
      }
      NulAhead(lexer.rest);
      var token := lexer.Next();
      complained := token != Eof || lexer.warned;
    }
  }

  // Position k is that of the first NUL.
  predicate FirstNul(s: string, k: int) { 0 <= k < |s| && s[k] == '\0' && forall i :: 0 <= i < k ==> s[i] != '\0' }

  // The text before the first NUL starts with the same token.
  lemma {:induction false} FirstBefore(s: string, k: nat)
    requires FirstNul(s, k)
    ensures First(s[..k]).0 == First(s).0
    ensures !First(s).0.Eof? ==>
      var rest := First(s).1;
      FirstNul(rest, k - (|s| - |rest|)) && First(s[..k]).1 == rest[..k - (|s| - |rest|)]
  {
    hide WordLength;
    if k > 0 && IsSpace(s[0]) {
      assert s[..k][1..] == s[1..][..k - 1];
      FirstBefore(s[1..], k - 1);
    } else if k > 0 && s[0] == '|' {
      assert s[..k][1..] == s[1..][..k - 1];
    } else if k > 0 {
      var n := WordLength(s);
      WordBefore(s, k);
      assert s[..k][n..] == s[n..][..k - n] && s[..k][..n] == s[..n];
    }
  }

  /** The tokens of a text are those before its first NUL. */
  lemma {:induction false} TokensStopAtNul(s: string, k: nat)
    requires FirstNul(s, k)
    ensures Tokens(s) == Tokens(s[..k])
    decreases |s|
  {
    hide First;
    TokensStep(s);
    TokensStep(s[..k]);
    FirstBefore(s, k);
    if !First(s).0.Eof? {
      var rest := First(s).1;
      TokensStopAtNul(rest, k - (|s| - |rest|));
    }
  }

  lemma WordBefore(s: string, k: nat)
    requires 0 < k < |s| && s[k] == '\0' && IsIdentifier(s[0])
    ensures 0 < WordLength(s) <= k && WordLength(s[..k]) == WordLength(s)
  {
    var n := WordLength(s);
    WordEnds(s[..k], n);
  }

  /** A NUL in a word: the lexer complains, and the rest is dropped. */
  lemma NulDropsRest()
    ensures Tokens("a\0b") == [Identifier("a")] && Complains("\0b")
  {
    TokensStopAtNul("a\0b", 1);
    assert "a\0b"[..1] == "a";
    WordEnds("a", 1);
  }

  // ----- printing -----

  /** Words that the lexer can give back. */
  predicate ValidWord(w: string) {
    w != "" && !IsSpace(w[0]) && forall i :: 0 <= i < |w| ==> IsIdentifier(w[i])
  }

  function Text(t: Token): string {
    match t
    case Eof => ""
    case Identifier(w) => w
    case Pipe => "|"
  }

  // Tokens with spaces before, between and after them.
  function Layout(ts: seq<Token>, gaps: seq<string>): string
    requires |gaps| == |ts| + 1
  {
    gaps[0] + if ts == [] then "" else Text(ts[0]) + Layout(ts[1..], gaps[1..])
  }

  predicate AllSpaces(s: string) { forall i :: 0 <= i < |s| ==> IsSpace(s[i]) }

  /** What comes after a word: a blank or a newline first, or without a gap a pipe or the end. Other
      spaces would become part of the word. */
  predicate WordStops(ts: seq<Token>, gaps: seq<string>, i: nat)
    requires |gaps| == |ts| + 1 && i < |ts|
  {
    if gaps[i + 1] != "" then !IsIdentifier(gaps[i + 1][0]) else i + 1 < |ts| ==> ts[i + 1] == Pipe
  }

  predicate Separated(ts: seq<Token>, gaps: seq<string>) {
    && |gaps| == |ts| + 1
    && (forall i :: 0 <= i < |gaps| ==> AllSpaces(gaps[i]))
    && (forall i :: 0 <= i < |ts| ==>
          ts[i] == Pipe || (ts[i].Identifier? && ValidWord(ts[i].text) && WordStops(ts, gaps, i)))
  }

  lemma {:induction false} GapsSkipped(gap: string, s: string)
    requires AllSpaces(gap)
    ensures First(gap + s) == First(s)
  {
    if gap == "" {
      assert gap + s == s;
    } else {
      GapsSkipped(gap[1..], s);
      assert (gap + s)[1..] == gap[1..] + s;
    }
  }

  lemma WordRead(w: string, s: string)
    requires ValidWord(w) && (s != "" ==> !IsIdentifier(s[0]))
    ensures First(w + s) == (Identifier(w), s)
  {
    WordEnds(w + s, |w|);
    assert (w + s)[..|w|] == w && (w + s)[|w|..] == s;
  }

  lemma NextStart(ts: seq<Token>, gaps: seq<string>)
    requires Separated(ts, gaps) && ts != [] && ts[0].Identifier?
    ensures var s := Layout(ts[1..], gaps[1..]); s != "" ==> !IsIdentifier(s[0])
  {
    assert WordStops(ts, gaps, 0);
  }

  /** However tokens are laid out, the lexer gives them back. */
  lemma {:induction false} LexLayout(ts: seq<Token>, gaps: seq<string>)
    requires Separated(ts, gaps)
    ensures Tokens(Layout(ts, gaps)) == ts
  {
    hide First, Tokens;
    TokensStep(Layout(ts, gaps));
    if ts == [] {
      GapsSkipped(gaps[0], "");
      FirstHere("");
    } else {
      var rest := Layout(ts[1..], gaps[1..]);
      GapsSkipped(gaps[0], Text(ts[0]) + rest);
      if ts[0] == Pipe {
        FirstHere("|" + rest);
        assert ("|" + rest)[1..] == rest;
      } else {
        NextStart(ts, gaps);
        WordRead(ts[0].text, rest);
      }
      TailSeparated(ts, gaps);
      LexLayout(ts[1..], gaps[1..]);
    }
  }

  lemma TailSeparated(ts: seq<Token>, gaps: seq<string>)
    requires Separated(ts, gaps) && ts != []
    ensures Separated(ts[1..], gaps[1..])
  {
    forall i | 0 <= i < |ts[1..]| && ts[1..][i].Identifier? ensures WordStops(ts[1..], gaps[1..], i) {
      assert WordStops(ts, gaps, i + 1);
    }
  }

  lemma {:induction false} YieldIsPipeline(n: Node)
    requires RightNested(n)
    ensures Pipeline(Yield(n))
  {
    match n
    case Command(words) =>
      PipelineTail(words, []);
      assert Words(words) + [] == Words(words);
    case Piped(lhs, rhs) =>
      YieldIsPipeline(rhs);
      PipelineTail(lhs.words, [Pipe] + Yield(rhs));
      assert ([Pipe] + Yield(rhs))[1..] == Yield(rhs);
      assert Words(lhs.words) + ([Pipe] + Yield(rhs)) == Yield(n);
  }

  lemma {:induction false} NoNulPrinted(ts: seq<Token>, gaps: seq<string>)
    requires Separated(ts, gaps)
    ensures '\0' !in Layout(ts, gaps)
  {
    assert AllSpaces(gaps[0]);
    if ts != [] {
      TailSeparated(ts, gaps);
      NoNulPrinted(ts[1..], gaps[1..]);
      assert '\0' !in Text(ts[0]);
    }
  }

  /** Printing a pipeline, with any separating gaps, then lexing and parsing gives back the same tree
      without a complaint. */
  method ParsePrinted(n: Node, gaps: seq<string>) returns (r: Option<Node>, complained: bool)
    requires RightNested(n) && Separated(Yield(n), gaps)
    ensures r == Some(n) && !complained
  {
    var text := Layout(Yield(n), gaps);
    LexLayout(Yield(n), gaps);
    NoNulPrinted(Yield(n), gaps);
    hide Tokens, First, Complains, Layout, Separated;
    YieldIsPipeline(n);
    var lexer := new Lexer(text);
    var parser := new Parser(lexer);
    r, complained := parser.Parse();
    YieldInjective(n, r.value);
  }

  // One blank between tokens.
  function Blanks(k: nat): (gaps: seq<string>)
    ensures |gaps| == k + 1 && forall i :: 0 <= i <= k ==> gaps[i] == if 0 < i < k then " " else ""
  {
    seq(k + 1, i => if 0 < i < k then " " else "")
  }

  predicate ValidWords(n: Node) {
    match n
    case Command(words) => forall i :: 0 <= i < |words| ==> ValidWord(words[i])
    case Piped(lhs, rhs) => ValidWords(lhs) && ValidWords(rhs)
  }

  /** Any pipeline of valid words can be printed with single blanks. */
  lemma BlanksSeparate(n: Node)
    requires ValidWords(n)
    ensures Separated(Yield(n), Blanks(|Yield(n)|))
  {
    YieldValid(n);
    var ts := Yield(n);
    var gaps := Blanks(|ts|);
    forall i | 0 <= i < |ts| ensures WordStops(ts, gaps, i) {
      assert i + 1 < |ts| ==> gaps[i + 1] == " ";
    }
  }

  lemma {:induction false} YieldValid(n: Node)
    requires ValidWords(n)
    ensures forall i :: 0 <= i < |Yield(n)| ==>
      Yield(n)[i] == Pipe || (Yield(n)[i].Identifier? && ValidWord(Yield(n)[i].text))
  {
    if n.Piped? {
      YieldValid(n.lhs);
      YieldValid(n.rhs);
    }
  }

  /** A tab does not separate words. */
  lemma TabInWord()
    ensures Tokens("a\tb") == [Identifier("a\tb")]
  {
    WordRead("a\tb", "");
    assert "a\tb" + "" == "a\tb";
    TokensStep("a\tb");
    TokensStep("");
  }
}
