/** `LexicalParser` of lexicalanalyzer.py: a hand-written scanner that splits
    a source string into words, classifies each word and enters it into the
    table of its class. The functions below say what each scanning routine
    computes from the source and a cursor; the class `LexicalParser` does the
    same work on its fields, with the loops of the source, and is proved to
    agree with them. */
module Lexer {
  import opened Util
  import opened Tokens

  /** What scanning raises. */
  datatype LexError =
    | ParseError(line: int, column: int)                  // `ParseError`: no token class, or `_parse_while` misstarted
    | InvalidIdentifier(line: int, column: int, word: string)  // `InvalidIdentifierError`
    | IndexOutOfRange                                     // `IndexError` of `_current_char` or `_next`
    | NoNextCharacter                                     // `None.isdigit()`: a number followed by a final '.'

  /** Where the scanner stands: the attributes `pos`, `line` and `line_pos`. */
  datatype Cursor = Cursor(pos: nat, line: int, linePos: int)

  /** The character class of words: `x.isalnum() or x in ('_', )`. */
  predicate IsWordChar(c: char) { IsAlnum(c) || c == '_' }

  /** The two-character comparison operators. */
  predicate IsOperator(w: string) { w == "==" || w == "<=" || w == ">=" || w == "!=" }

  /** `_current_char`: indexing past the end raises. */
  function CharAt(src: string, c: Cursor): Result<char, LexError> {
    if c.pos < |src| then Ok(src[c.pos]) else Err(IndexOutOfRange)
  }

  /** `_has_next`. */
  predicate HasNextAt(src: string, c: Cursor) { c.pos + 1 < |src| }

  /** `_peek_next`. */
  function PeekAt(src: string, c: Cursor): Option<char> {
    if c.pos + 1 < |src| then Some(src[c.pos + 1]) else None
  }

  /** `_next`: step over the current character, moving to column 1 of the
      next line after a newline, and return the character reached. */
  function Advance(src: string, c: Cursor): (r: Result<(Cursor, char), LexError>)
    ensures r.Ok? <==> c.pos + 1 < |src|
    ensures r.Ok? ==> r.value.0.pos == c.pos + 1 && r.value.1 == src[c.pos + 1]
    ensures r.Ok? && src[c.pos] == '\n' ==> r.value.0.line == c.line + 1 && r.value.0.linePos == 1
    ensures r.Ok? && src[c.pos] != '\n' ==> r.value.0.line == c.line && r.value.0.linePos == c.linePos + 1
    ensures r.Err? ==> r.error == IndexOutOfRange
  {
    if c.pos >= |src| then Err(IndexOutOfRange)
    else
      var (line, column) := if src[c.pos] == '\n' then (c.line + 1, 0) else (c.line, c.linePos);
      var next := Cursor(c.pos + 1, line, column + 1);
      if next.pos < |src| then Ok((next, src[next.pos])) else Err(IndexOutOfRange)
  }

  /** The loop of `_parse_while`, entered at a character that satisfies `pred`
      with `word` read so far: the maximal run of such characters. At the end
      of the source the cursor is put at `length` without moving the line. */
  function WhileFrom(src: string, pred: char -> bool, c: Cursor, word: string): (r: (Cursor, string))
    requires c.pos < |src| && pred(src[c.pos])
    ensures c.pos < r.0.pos <= |src|
    ensures r.1 == word + src[c.pos..r.0.pos]
    ensures forall k :: c.pos <= k < r.0.pos ==> pred(src[k])
    ensures r.0.pos == |src| || !pred(src[r.0.pos])
    decreases |src| - c.pos
  {
    var word' := word + [src[c.pos]];
    if !HasNextAt(src, c) then (c.(pos := |src|), word')
    else
      var next := Advance(src, c).value.0;
      if pred(src[next.pos]) then
        var r := WhileFrom(src, pred, next, word');
        assert src[c.pos..r.0.pos] == [src[c.pos]] + src[next.pos..r.0.pos];
        r
      else (next, word')
  }

  /** `_parse_while`: the run of `pred` characters at the cursor, or an error
      when the cursor is past the end or at a character outside the class. */
  function ParseWhileAt(src: string, pred: char -> bool, c: Cursor): Result<(Cursor, string), LexError> {
    if c.pos >= |src| then Err(IndexOutOfRange)
    else if !pred(src[c.pos]) then Err(ParseError(c.line, c.linePos))
    else Ok(WhileFrom(src, pred, c, ""))
  }

  /** `_parse_whitespaces`: skip the white space at the cursor. */
  function WhitespaceAt(src: string, c: Cursor): (r: Result<(Cursor, string), LexError>)
    ensures r.Err? <==> c.pos >= |src|
    ensures r.Err? ==> r.error == IndexOutOfRange
    ensures r.Ok? ==> c.pos <= r.value.0.pos <= |src| && r.value.1 == src[c.pos..r.value.0.pos]
    ensures r.Ok? ==> forall k :: c.pos <= k < r.value.0.pos ==> IsSpace(src[k])
    ensures r.Ok? ==> r.value.0.pos == |src| || !IsSpace(src[r.value.0.pos])
  {
    if c.pos >= |src| then Err(IndexOutOfRange)
    else if !IsSpace(src[c.pos]) then Ok((c, ""))
    else ParseWhileAt(src, IsSpace, c)
  }

  /** One of the four operator branches of `_parse_token_word` holds: a
      comparison character followed by '='. */
  predicate OperatorStart(src: string, c: Cursor) {
    c.pos + 1 < |src| && src[c.pos] in "=<>!" && src[c.pos + 1] == '='
  }

  /** The operator branches: two `_next` calls, the second of which raises
      when the operator ends the source. */
  function OperatorAt(src: string, c: Cursor): (r: Result<(Cursor, string), LexError>)
    requires OperatorStart(src, c)
    ensures r.Ok? <==> c.pos + 2 < |src|
    ensures r.Ok? ==> r.value.0.pos == c.pos + 2 && r.value.1 == src[c.pos..c.pos + 2] && IsOperator(r.value.1)
    ensures r.Err? ==> r.error == IndexOutOfRange
  {
    var c1 := Advance(src, c).value.0;
    match Advance(src, c1)
    case Err(e) => Err(e)
    case Ok((c2, _)) => Ok((c2, [src[c.pos], '=']))
  }

  /** A character that cannot start a word is a word by itself; the cursor
      moves past it only when another character follows. */
  function SingleAt(src: string, c: Cursor): (r: (Cursor, string))
    requires c.pos < |src|
    ensures r.1 == src[c.pos..c.pos + 1]
    ensures r.0.pos == if c.pos + 1 < |src| then c.pos + 1 else c.pos
  {
    if HasNextAt(src, c) then (Advance(src, c).value.0, [src[c.pos]]) else (c, [src[c.pos]])
  }

  /** The test after a word `word` that ends at `c`: a number followed by '.'
      and a digit goes on with the fraction, read as a second run of word
      characters. Testing the character after a number that ends the source
      raises, and so does a number followed by a final '.'. */
  function FractionAt(src: string, c: Cursor, word: string): (r: Result<(Cursor, string), LexError>)
    requires c.pos <= |src|
    ensures r.Err? <==> IsNumeric(word) && (c.pos == |src| || (src[c.pos] == '.' && c.pos + 1 == |src|))
    ensures r.Ok? ==>
              r.value == (c, word)
              || (IsNumeric(word) && c.pos + 1 < |src| && src[c.pos] == '.' && IsDigit(src[c.pos + 1])
                  && c.pos + 1 < r.value.0.pos <= |src| && r.value.1 == word + src[c.pos..r.value.0.pos]
                  && (forall k :: c.pos < k < r.value.0.pos ==> IsWordChar(src[k]))
                  && (r.value.0.pos == |src| || !IsWordChar(src[r.value.0.pos])))
  {
    if !IsNumeric(word) then Ok((c, word))
    else if c.pos >= |src| then Err(IndexOutOfRange)
    else if src[c.pos] != '.' then Ok((c, word))
    else if PeekAt(src, c).None? then Err(NoNextCharacter)
    else if !IsDigit(PeekAt(src, c).value) then Ok((c, word))
    else
      var c2 := Advance(src, c).value.0;
      var (c3, second) := WhileFrom(src, IsWordChar, c2, "");
      assert src[c.pos..c3.pos] == "." + src[c2.pos..c3.pos];
      Ok((c3, word + "." + second))
  }

  /** `w`, read at the cursor `c` and leaving the cursor at `c2`, is the
      non-empty piece of the source at `c`, and `c2` stands just after it;
      only a single character at the very end leaves the cursor where it was. */
  predicate ReadsPiece(src: string, c: Cursor, c2: Cursor, w: string) {
    0 < |w| && c.pos + |w| <= |src| && w == src[c.pos..c.pos + |w|]
    && (c2.pos == c.pos + |w| || (c2.pos == c.pos && |w| == 1 && c.pos + 1 == |src|))
  }

  /** The word branch of `_parse_token_word`: a run of word characters, with
      its fraction when it is a number. */
  function WordAt(src: string, c: Cursor): (r: Result<(Cursor, string), LexError>)
    requires c.pos < |src| && IsWordChar(src[c.pos])
    ensures r.Ok? ==> ReadsPiece(src, c, r.value.0, r.value.1) && r.value.0.pos == c.pos + |r.value.1|
    ensures r.Ok? ==> forall k :: c.pos <= k < c.pos + |r.value.1| ==> !IsSpace(src[k])
  {
    var (c1, word) := WhileFrom(src, IsWordChar, c, "");
    var r := FractionAt(src, c1, word);
    if r.Ok? then WordPiece(src, c, c1, word, r.value); r else r
  }

  /** A run of word characters, with or without its fraction, is a piece of
      the source free of white space that ends at the new cursor. */
  lemma WordPiece(src: string, c: Cursor, c1: Cursor, word: string, v: (Cursor, string))
    requires c.pos < c1.pos <= |src| && word == src[c.pos..c1.pos]
    requires forall k :: c.pos <= k < c1.pos ==> IsWordChar(src[k])
    requires FractionAt(src, c1, word) == Ok(v)
    ensures ReadsPiece(src, c, v.0, v.1) && v.0.pos == c.pos + |v.1|
    ensures forall k :: c.pos <= k < c.pos + |v.1| ==> !IsSpace(src[k])
  {
    if v != (c1, word) {
      assert src[c.pos..v.0.pos] == src[c.pos..c1.pos] + src[c1.pos..v.0.pos];
    }
  }

  /** `_parse_token_word`: a comparison operator, a single character that
      cannot start a word, or a run of word characters with its fraction. */
  function TokenWordAt(src: string, c: Cursor): (r: Result<(Cursor, string), LexError>)
    ensures c.pos >= |src| ==> r == Err(IndexOutOfRange)
    ensures r.Ok? ==> ReadsPiece(src, c, r.value.0, r.value.1)
    ensures r.Ok? && !IsSpace(src[c.pos]) ==> forall k :: c.pos <= k < c.pos + |r.value.1| ==> !IsSpace(src[k])
    ensures OperatorStart(src, c) ==> (r.Ok? <==> c.pos + 2 < |src|) && (r.Ok? ==> IsOperator(r.value.1))
  {
    if c.pos >= |src| then Err(IndexOutOfRange)
    else if OperatorStart(src, c) then OperatorAt(src, c)
    else if !IsWordChar(src[c.pos]) then Ok(SingleAt(src, c))
    else WordAt(src, c)
  }

  /** A run of digits followed by '.' and a digit is read as one number
      `digits.rest`, `rest` being the run of word characters after the '.'. */
  lemma TokenWordDecimal(src: string, c: Cursor, i: nat)
    requires c.pos < i && i + 1 < |src|
    requires forall k :: c.pos <= k < i ==> IsDigit(src[k])
    requires src[i] == '.' && IsDigit(src[i + 1])
    ensures var r := TokenWordAt(src, c);
      r.Ok? && var (c', w) := r.value;
      c'.pos > i + 1 && w == src[c.pos..c'.pos] && IsNumeric(w[..i - c.pos]) && w[i - c.pos] == '.'
      && (forall k :: i < k < c'.pos ==> IsWordChar(src[k]))
      && (c'.pos == |src| || !IsWordChar(src[c'.pos]))
  {
    var (c1, word) := WhileFrom(src, IsWordChar, c, "");
    assert c1.pos == i;
    assert word == src[c.pos..i];
  }

  /** `_get_type`: keywords first; then identifiers, which must match the
      identifier pattern; then the comparison operators and single
      non-digit characters as delimiters; then anything `float()` accepts as
      a constant; `None` for the rest. */
  function Classify(keywords: seq<string>, idMatch: string -> bool, isFloat: string -> bool,
                    line: int, linePos: int, word: string): (r: Result<Option<nat>, LexError>)
    ensures word in keywords ==> r == Ok(Some(TYPE_KEYWORD))
    ensures r == Ok(Some(TYPE_KEYWORD)) ==> word in keywords
    ensures r == Ok(Some(TYPE_IDENTIFIER)) <==> word !in keywords && IsIdentifier(word) && idMatch(word)
    ensures r.Err? <==> word !in keywords && IsIdentifier(word) && !idMatch(word)
    ensures r.Err? ==> r.error == InvalidIdentifier(line, linePos - |word|, word)
    ensures r == Ok(Some(TYPE_DELIMITER)) <==>
              word !in keywords && !IsIdentifier(word) && (IsOperator(word) || (|word| == 1 && !IsDigit(word[0])))
    ensures r == Ok(Some(TYPE_CONST)) <==>
              word !in keywords && !IsIdentifier(word) && !IsOperator(word) && !(|word| == 1 && !IsDigit(word[0]))
              && isFloat(word)
    ensures r.Ok? && r.value.Some? ==> r.value.value in {TYPE_CONST, TYPE_KEYWORD, TYPE_IDENTIFIER, TYPE_DELIMITER}
  {
    if word in keywords then Ok(Some(TYPE_KEYWORD))
    else if IsIdentifier(word) then
      if idMatch(word) then Ok(Some(TYPE_IDENTIFIER))
      else Err(InvalidIdentifier(line, linePos - |word|, word))
    else if IsOperator(word) then Ok(Some(TYPE_DELIMITER))
    else if |word| == 1 && !IsDigit(word[0]) then Ok(Some(TYPE_DELIMITER))
    else if isFloat(word) then Ok(Some(TYPE_CONST))
    else Ok(None)
  }

  /** The three tables the lexer fills; the keyword table is fixed. */
  datatype Tables = Tables(constants: seq<string>, identifiers: seq<string>, delimiters: seq<string>)

  /** `if word not in table: table.append(word)` and then `table.index(word)`:
      the table gains the word once, and the index is where it stands. */
  function Enter(table: seq<string>, word: string): (r: (seq<string>, nat))
    ensures word in table ==> r.0 == table
    ensures word !in table ==> r.0 == table + [word]
    ensures r.1 < |r.0| && r.0[r.1] == word
    ensures forall k :: 0 <= k < r.1 ==> r.0[k] != word
    ensures Distinct(table) ==> Distinct(r.0)
  {
    var t := if word in table then table else table + [word];
    (t, IndexOf(t, word))
  }

  /** `_get_const_token` and its siblings: the token of a classified word,
      stamped with `at`, the cursor position after the word. */
  function MakeToken(tables: Tables, keywords: seq<string>, ty: nat, word: string, at: Position): (r: (Tables, Token))
    requires ty == TYPE_KEYWORD ==> word in keywords
    ensures r.1.value == word && r.1.pos == at
  {
    if ty == TYPE_CONST then
      var (t, i) := Enter(tables.constants, word);
      (tables.(constants := t), Token(TYPE_CONST, i, at, word))
    else if ty == TYPE_KEYWORD then
      (tables, Token(TYPE_KEYWORD, IndexOf(keywords, word), at, word))
    else if ty == TYPE_IDENTIFIER then
      var (t, i) := Enter(tables.identifiers, word);
      (tables.(identifiers := t), Token(TYPE_IDENTIFIER, i, at, word))
    else
      var (t, i) := Enter(tables.delimiters, word);
      (tables.(delimiters := t), Token(TYPE_DELIMITER, i, at, word))
  }

  /** The state `parse` works on: the cursor, the tables and the token list. */
  datatype LexState = LexState(cursor: Cursor, tables: Tables, tokens: seq<Token>)

  /** How one pass through the loop of `parse` ends: the loop stops with the
      outcome of `parse`, or goes on from a new state. */
  datatype Pass = Stop(result: Result<LexState, LexError>) | Continue(next: LexState)

  /** The body of the loop of `parse`: skip white space, stop at the end of
      the source, read a word, classify it, append its token, and go on only
      while a character follows the cursor. */
  function LexPass(src: string, keywords: seq<string>, idMatch: string -> bool, isFloat: string -> bool,
                   st: LexState): (r: Pass)
    ensures r.Continue? ==> st.cursor.pos < r.next.cursor.pos && r.next.cursor.pos + 1 < |src|
  {
    match WhitespaceAt(src, st.cursor)
    case Err(e) => Stop(Err(e))
    case Ok((c1, _)) =>
      if c1.pos == |src| then Stop(Ok(st.(cursor := c1)))
      else
        match TokenWordAt(src, c1)
        case Err(e) => Stop(Err(e))
        case Ok((c2, word)) =>
          match Classify(keywords, idMatch, isFloat, c2.line, c2.linePos, word)
          case Err(e) => Stop(Err(e))
          case Ok(None) => Stop(Err(ParseError(c2.line, c2.linePos)))
          case Ok(Some(ty)) =>
            var (tables, token) := MakeToken(st.tables, keywords, ty, word, (c2.line, c2.linePos));
            var st' := LexState(c2, tables, st.tokens + [token]);
            if !HasNextAt(src, c2) then Stop(Ok(st')) else Continue(st')
  }

  /** The loop of `parse`, from state `st` to its outcome. */
  function Lex(src: string, keywords: seq<string>, idMatch: string -> bool, isFloat: string -> bool,
               st: LexState): Result<LexState, LexError>
    decreases |src| - st.cursor.pos
  {
    match LexPass(src, keywords, idMatch, isFloat, st)
    case Stop(r) => r
    case Continue(st') => Lex(src, keywords, idMatch, isFloat, st')
  }

  /** The state a pass ends in, when it does not raise. */
  function PassState(p: Pass): LexState
    requires p.Continue? || p.result.Ok?
  {
    if p.Continue? then p.next else p.result.value
  }

  /** Each table is free of duplicates. */
  predicate TablesDistinct(t: Tables) {
    Distinct(t.constants) && Distinct(t.identifiers) && Distinct(t.delimiters)
  }

  /** `t` names its own word: its index points at its value in its table. */
  predicate Indexed(t: Token, tables: Tables, keywords: seq<string>) {
    if t.table == TYPE_CONST then t.index < |tables.constants| && tables.constants[t.index] == t.value
    else if t.table == TYPE_KEYWORD then t.index < |keywords| && keywords[t.index] == t.value
    else if t.table == TYPE_IDENTIFIER then t.index < |tables.identifiers| && tables.identifiers[t.index] == t.value
    else t.table == TYPE_DELIMITER && t.index < |tables.delimiters| && tables.delimiters[t.index] == t.value
  }

  /** Every token of a list names its word. */
  predicate AllIndexed(ts: seq<Token>, tables: Tables, keywords: seq<string>) {
    forall k :: 0 <= k < |ts| ==> Indexed(ts[k], tables, keywords)
  }

  ghost predicate Extends<T>(a: seq<T>, b: seq<T>) {
    |a| <= |b| && b[..|a|] == a
  }

  /** `b` is `a` with words appended at the end of each table. */
  ghost predicate TablesGrow(a: Tables, b: Tables) {
    Extends(a.constants, b.constants) && Extends(a.identifiers, b.identifiers)
    && Extends(a.delimiters, b.delimiters)
  }

  lemma ExtendsTrans<T>(a: seq<T>, b: seq<T>, c: seq<T>)
    requires Extends(a, b) && Extends(b, c)
    ensures Extends(a, c)
  {
    assert c[..|a|] == c[..|b|][..|a|];
  }

  lemma IndexedGrow(t: Token, a: Tables, b: Tables, keywords: seq<string>)
    requires Indexed(t, a, keywords) && TablesGrow(a, b)
    ensures Indexed(t, b, keywords)
  {
    if t.table == TYPE_CONST { assert b.constants[t.index] == b.constants[..|a.constants|][t.index]; }
    else if t.table == TYPE_IDENTIFIER { assert b.identifiers[t.index] == b.identifiers[..|a.identifiers|][t.index]; }
    else if t.table == TYPE_DELIMITER { assert b.delimiters[t.index] == b.delimiters[..|a.delimiters|][t.index]; }
  }

  /** A single token: the tables only grow, stay free of duplicates, and the
      token names its word. */
  lemma MakeTokenIndexed(tables: Tables, keywords: seq<string>, ty: nat, word: string, at: Position)
    requires ty in {TYPE_CONST, TYPE_KEYWORD, TYPE_IDENTIFIER, TYPE_DELIMITER}
    requires ty == TYPE_KEYWORD ==> word in keywords
    requires TablesDistinct(tables)
    ensures var (t, tok) := MakeToken(tables, keywords, ty, word, at);
      TablesDistinct(t) && TablesGrow(tables, t) && Indexed(tok, t, keywords)
      && tok.table == ty && tok.value == word && tok.pos == at
  {
  }

  /** One pass keeps the tables free of duplicates, only lets them grow, and
      leaves every token naming its word. */
  lemma PassIndexed(src: string, keywords: seq<string>, idMatch: string -> bool, isFloat: string -> bool,
                    st: LexState)
    requires TablesDistinct(st.tables) && AllIndexed(st.tokens, st.tables, keywords)
    requires var p := LexPass(src, keywords, idMatch, isFloat, st); p.Continue? || p.result.Ok?
    ensures var st' := PassState(LexPass(src, keywords, idMatch, isFloat, st));
      TablesDistinct(st'.tables) && TablesGrow(st.tables, st'.tables) && AllIndexed(st'.tokens, st'.tables, keywords)
  {
    var (c1, _) := WhitespaceAt(src, st.cursor).value;
    if c1.pos < |src| {
      var (c2, word) := TokenWordAt(src, c1).value;
      var ty := Classify(keywords, idMatch, isFloat, c2.line, c2.linePos, word).value.value;
      var (tables, token) := MakeToken(st.tables, keywords, ty, word, (c2.line, c2.linePos));
      MakeTokenIndexed(st.tables, keywords, ty, word, (c2.line, c2.linePos));
      forall k | 0 <= k < |st.tokens| + 1 ensures Indexed((st.tokens + [token])[k], tables, keywords) {
        if k < |st.tokens| { IndexedGrow(st.tokens[k], st.tables, tables, keywords); }
      }
    }
  }

  /** After a whole `parse`, the tables have only grown and stayed free of
      duplicates, and every token, old and new, names its word in its table. */
  lemma {:induction false} LexIndexed(src: string, keywords: seq<string>, idMatch: string -> bool,
                                      isFloat: string -> bool, st: LexState)
    requires TablesDistinct(st.tables) && AllIndexed(st.tokens, st.tables, keywords)
    requires Lex(src, keywords, idMatch, isFloat, st).Ok?
    ensures var st' := Lex(src, keywords, idMatch, isFloat, st).value;
      TablesDistinct(st'.tables) && TablesGrow(st.tables, st'.tables) && AllIndexed(st'.tokens, st'.tables, keywords)
    decreases |src| - st.cursor.pos
  {
    var p := LexPass(src, keywords, idMatch, isFloat, st);
    PassIndexed(src, keywords, idMatch, isFloat, st);
    if p.Continue? {
      LexIndexed(src, keywords, idMatch, isFloat, p.next);
      var fin := Lex(src, keywords, idMatch, isFloat, p.next).value.tables;
      ExtendsTrans(st.tables.constants, p.next.tables.constants, fin.constants);
      ExtendsTrans(st.tables.identifiers, p.next.tables.identifiers, fin.identifiers);
      ExtendsTrans(st.tables.delimiters, p.next.tables.delimiters, fin.delimiters);
    }
  }

  /** Two tokens of one table with the same word have the same index. */
  lemma SameWordSameIndex(t: Token, u: Token, tables: Tables, keywords: seq<string>)
    requires TablesDistinct(tables) && Distinct(keywords)
    requires Indexed(t, tables, keywords) && Indexed(u, tables, keywords)
    requires t.table == u.table && t.value == u.value
    ensures t.index == u.index
  {
  }

  /** The values of a token list. */
  function Words(ts: seq<Token>): (ws: seq<string>)
    ensures |ws| == |ts| && forall k :: 0 <= k < |ts| ==> ws[k] == ts[k].value
  {
    seq(|ts|, k requires 0 <= k < |ts| => ts[k].value)
  }

  /** `w` is the piece of `src` starting at `p`. */
  predicate OccursAt(src: string, w: string, p: nat) {
    p + |w| <= |src| && src[p..p + |w|] == w
  }

  predicate NoSpace(w: string) {
    forall k :: 0 <= k < |w| ==> !IsSpace(w[k])
  }

  /** `words` occur in `src` in this order, without overlapping, at or after `from`. */
  ghost predicate OccurInOrder(src: string, words: seq<string>, from: nat)
    decreases |words|
  {
    words == []
    || exists p: nat :: from <= p && OccursAt(src, words[0], p) && OccurInOrder(src, words[1..], p + |words[0]|)
  }

  /** A pass that does not raise either stops, at the end of the source,
      with the tokens it had, or appends one token: a piece of the source
      at or after the cursor, free of white space; when the loop goes on,
      the cursor stands just after that piece. */
  lemma PassAppends(src: string, keywords: seq<string>, idMatch: string -> bool, isFloat: string -> bool,
                    st: LexState)
    requires var p := LexPass(src, keywords, idMatch, isFloat, st); p.Continue? || p.result.Ok?
    ensures var p := LexPass(src, keywords, idMatch, isFloat, st);
      var st' := PassState(p);
      (p.Stop? && st'.tokens == st.tokens)
      || (|st'.tokens| == |st.tokens| + 1 && st'.tokens[..|st.tokens|] == st.tokens
          && var w := st'.tokens[|st.tokens|].value;
          NoSpace(w)
          && exists q: nat :: st.cursor.pos <= q && OccursAt(src, w, q) && (p.Continue? ==> st'.cursor.pos == q + |w|))
  {
    var (c1, _) := WhitespaceAt(src, st.cursor).value;
    if c1.pos < |src| {
      var (c2, word) := TokenWordAt(src, c1).value;
      var ty := Classify(keywords, idMatch, isFloat, c2.line, c2.linePos, word).value.value;
      var (tables, token) := MakeToken(st.tables, keywords, ty, word, (c2.line, c2.linePos));
      assert OccursAt(src, word, c1.pos);
      PieceNoSpace(src, c1.pos, word);
      assert (st.tokens + [token])[..|st.tokens|] == st.tokens;
    }
  }

  /** A piece of the source that covers no white space has none. */
  lemma PieceNoSpace(src: string, q: nat, w: string)
    requires OccursAt(src, w, q)
    requires forall k :: q <= k < q + |w| ==> !IsSpace(src[k])
    ensures NoSpace(w)
  {
    forall k | 0 <= k < |w| ensures !IsSpace(w[k]) {
      assert w[k] == src[q + k];
    }
  }

  /** The tokens `parse` appends are pieces of the source free of white
      space, in the order they occur, starting at the cursor; the tokens
      it had before are kept in front. */
  lemma {:induction false} LexInOrder(src: string, keywords: seq<string>, idMatch: string -> bool,
                                      isFloat: string -> bool, st: LexState)
    requires Lex(src, keywords, idMatch, isFloat, st).Ok?
    ensures var ts := Lex(src, keywords, idMatch, isFloat, st).value.tokens;
      Extends(st.tokens, ts)
      && OccurInOrder(src, Words(ts[|st.tokens|..]), st.cursor.pos)
      && forall k :: |st.tokens| <= k < |ts| ==> NoSpace(ts[k].value)
    decreases |src| - st.cursor.pos
  {
    var p := LexPass(src, keywords, idMatch, isFloat, st);
    var ts := Lex(src, keywords, idMatch, isFloat, st).value.tokens;
    var st' := PassState(p);
    PassAppends(src, keywords, idMatch, isFloat, st);
    if p.Stop? {
      var ws := Words(ts[|st.tokens|..]);
      if |ts| > |st.tokens| {
        var w := ts[|st.tokens|].value;
        var q: nat :| st.cursor.pos <= q && OccursAt(src, w, q);
        assert ws == [w];
        assert OccurInOrder(src, ws[1..], q + |w|);
      }
    } else {
      LexInOrder(src, keywords, idMatch, isFloat, st');
      var w := st'.tokens[|st.tokens|].value;
      var q: nat :| st.cursor.pos <= q && OccursAt(src, w, q) && st'.cursor.pos == q + |w|;
      ExtendsTrans(st.tokens, st'.tokens, ts);
      var ws := Words(ts[|st.tokens|..]);
      assert ws[0] == w by { assert ts[|st.tokens|] == ts[..|st'.tokens|][|st.tokens|]; }
      assert ws[1..] == Words(ts[|st'.tokens|..]);
      assert OccurInOrder(src, ws[1..], q + |w|);
      forall k | |st.tokens| <= k < |ts| ensures NoSpace(ts[k].value) {
        if k == |st.tokens| { assert ts[k] == ts[..|st'.tokens|][k]; }
      }
    }
  }

  /** The loop stops once no character follows the cursor, even when the
      cursor stands on an unread character: on `a;` only `a` becomes a token. */
  lemma FinalCharacterUnread(idMatch: string -> bool, isFloat: string -> bool)
    requires idMatch("a")
    ensures Lex("a;", [], idMatch, isFloat, LexState(Cursor(0, 1, 1), Tables([], [], []), []))
            == Ok(LexState(Cursor(1, 1, 2), Tables([], ["a"], []), [Token(TYPE_IDENTIFIER, 0, (1, 2), "a")]))
  {
    var src := "a;";
    var c0 := Cursor(0, 1, 1);
    var st := LexState(c0, Tables([], [], []), []);
    assert WhitespaceAt(src, c0) == Ok((c0, ""));
    assert HasNextAt(src, c0);
    assert Advance(src, c0).value.0 == Cursor(1, 1, 2);
    assert !IsWordChar(src[1]);
    assert "" + [src[0]] == "a";
    assert WhileFrom(src, IsWordChar, c0, "").1 == "a";
    assert WhileFrom(src, IsWordChar, c0, "").0 == Cursor(1, 1, 2);
    assert !IsNumeric("a");
    assert FractionAt(src, Cursor(1, 1, 2), "a") == Ok((Cursor(1, 1, 2), "a"));
    assert TokenWordAt(src, c0) == Ok((Cursor(1, 1, 2), "a"));
    assert Classify([], idMatch, isFloat, 1, 2, "a") == Ok(Some(TYPE_IDENTIFIER));
    var none: seq<string> := [];
    assert none + ["a"] == ["a"];
    assert IndexOf(["a"], "a") == 0;
    assert Enter([], "a") == (["a"], 0);
    assert MakeToken(Tables([], [], []), [], TYPE_IDENTIFIER, "a", (1, 2))
           == (Tables([], ["a"], []), Token(TYPE_IDENTIFIER, 0, (1, 2), "a"));
    assert !HasNextAt(src, Cursor(1, 1, 2));
    assert st.tokens + [Token(TYPE_IDENTIFIER, 0, (1, 2), "a")] == [Token(TYPE_IDENTIFIER, 0, (1, 2), "a")];
    assert LexPass(src, [], idMatch, isFloat, st)
           == Stop(Ok(LexState(Cursor(1, 1, 2), Tables([], ["a"], []), [Token(TYPE_IDENTIFIER, 0, (1, 2), "a")])));
  }

  class LexicalParser {
    var constants: seq<string>
    var identifiers: seq<string>
    const keywords: seq<string>
    var delimiters: seq<string>
    /** `identifierRegex.fullmatch`: whether a word matches the identifier pattern. */
    const identifierMatch: string -> bool
    /** Whether Python's `float()` accepts a word. */
    const isFloat: string -> bool
    var pos: nat
    var line: int
    var linePos: int
    var source: string
    var tokenList: seq<Token>

    constructor(keywords: seq<string>, identifierMatch: string -> bool, isFloat: string -> bool)
      ensures this.keywords == keywords && this.identifierMatch == identifierMatch && this.isFloat == isFloat
      ensures constants == [] && identifiers == [] && delimiters == []
      ensures pos == 0 && line == 1 && linePos == 1 && source == "" && tokenList == []
    {
      this.keywords := keywords;
      this.identifierMatch := identifierMatch;
      this.isFloat := isFloat;
      constants, identifiers, delimiters := [], [], [];
      pos, line, linePos := 0, 1, 1;
      source, tokenList := "", [];
    }

    function At(): Cursor reads this { Cursor(pos, line, linePos) }

    function TablesNow(): Tables reads this { Tables(constants, identifiers, delimiters) }

    function State(): LexState reads this { LexState(At(), TablesNow(), tokenList) }

    /** `_current_pos`. */
    function CurrentPos(): Position reads this { (line, linePos) }

    /** `_next`. */
    method Next() returns (r: Result<char, LexError>)
      modifies this
      ensures r.Ok? <==> old(pos) + 1 < |source|
      ensures r.Ok? ==> pos == old(pos) + 1 && r.value == source[pos]
      ensures r.Ok? && source[old(pos)] == '\n' ==> line == old(line) + 1 && linePos == 1
      ensures r.Ok? && source[old(pos)] != '\n' ==> line == old(line) && linePos == old(linePos) + 1
      ensures r.Ok? ==> r == Ok(Advance(source, old(At())).value.1) && At() == Advance(source, old(At())).value.0
      ensures r.Err? ==> r.error == IndexOutOfRange
      ensures source == old(source) && TablesNow() == old(TablesNow()) && tokenList == old(tokenList)
    {
      if pos >= |source| {
        return Err(IndexOutOfRange);
      }
      if source[pos] == '\n' {
        line := line + 1;
        linePos := 0;
      }
      pos := pos + 1;
      linePos := linePos + 1;
      if pos < |source| {
        r := Ok(source[pos]);
      } else {
        r := Err(IndexOutOfRange);
      }
    }

    /** `_parse_while`. */
    method ParseWhile(pred: char -> bool) returns (r: Result<string, LexError>)
      modifies this
      ensures var s := ParseWhileAt(source, pred, old(At()));
        r.Ok? == s.Ok? && (r.Ok? ==> r.value == s.value.1 && At() == s.value.0) && (r.Err? ==> r.error == s.error)
      ensures source == old(source) && TablesNow() == old(TablesNow()) && tokenList == old(tokenList)
    {
      if pos >= |source| {
        return Err(IndexOutOfRange);
      }
      var c := source[pos];
      var word := "";
      if !pred(c) {
        return Err(ParseError(line, linePos));
      }
      ghost var start := At();
      while pred(c)
        invariant source == old(source) && TablesNow() == old(TablesNow()) && tokenList == old(tokenList)
        invariant pos < |source| && c == source[pos] && start == old(At())
        invariant pred(c) ==> WhileFrom(source, pred, start, "") == WhileFrom(source, pred, At(), word)
        invariant !pred(c) ==> WhileFrom(source, pred, start, "") == (At(), word)
        decreases |source| - pos
      {
        word := word + [c];
        if pos + 1 >= |source| {
          pos := |source|;
          break;
        }
        var n := Next();
        c := n.value;
      }
      return Ok(word);
    }

    /** `_parse_whitespaces`. */
    method ParseWhitespaces() returns (r: Result<string, LexError>)
      modifies this
      ensures var s := WhitespaceAt(source, old(At()));
        r.Ok? == s.Ok? && (r.Ok? ==> r.value == s.value.1 && At() == s.value.0) && (r.Err? ==> r.error == s.error)
      ensures source == old(source) && TablesNow() == old(TablesNow()) && tokenList == old(tokenList)
    {
      if pos >= |source| {
        return Err(IndexOutOfRange);
      }
      if !IsSpace(source[pos]) {
        return Ok("");
      }
      r := ParseWhile(IsSpace);
    }

    /** `_parse_token_word`. */
    method ParseTokenWord() returns (r: Result<string, LexError>)
      modifies this
      ensures var s := TokenWordAt(source, old(At()));
        r.Ok? == s.Ok? && (r.Ok? ==> r.value == s.value.1 && At() == s.value.0) && (r.Err? ==> r.error == s.error)
      ensures source == old(source) && TablesNow() == old(TablesNow()) && tokenList == old(tokenList)
    {
      if pos >= |source| {
        return Err(IndexOutOfRange);
      }
      var c := source[pos];
      if (c == '=' || c == '<' || c == '>' || c == '!') && pos + 1 < |source| && source[pos + 1] == '=' {
        var _ := Next();
        var second := Next();
        if second.Err? {
          return Err(second.error);
        }
        return Ok([c, '=']);
      }
      if !IsWordChar(c) {
        if pos + 1 < |source| {
          var _ := Next();
        }
        return Ok([c]);
      }
      r := ParseWord();
    }

    /** The word branch of `_parse_token_word`. */
    method ParseWord() returns (r: Result<string, LexError>)
      requires pos < |source| && IsWordChar(source[pos])
      modifies this
      ensures var s := WordAt(old(source), old(At()));
        r.Ok? == s.Ok? && (r.Ok? ==> r.value == s.value.1 && At() == s.value.0) && (r.Err? ==> r.error == s.error)
      ensures source == old(source) && TablesNow() == old(TablesNow()) && tokenList == old(tokenList)
    {
      var w := ParseWhile(IsWordChar);
      var word := w.value;
      if IsNumeric(word) {
        if pos >= |source| {
          return Err(IndexOutOfRange);
        }
        if source[pos] == '.' {
          if pos + 1 >= |source| {
            return Err(NoNextCharacter);
          }
          if IsDigit(source[pos + 1]) {
            var _ := Next();
            var w2 := ParseWhile(IsWordChar);
            return Ok(word + "." + w2.value);
          }
        }
      }
      return Ok(word);
    }

    /** `_get_keyword_token`. */
    method GetKeywordToken(word: string) returns (t: Token)
      requires word in keywords
      ensures t == Token(TYPE_KEYWORD, IndexOf(keywords, word), CurrentPos(), word)
      ensures keywords[t.index] == word
    {
      t := Token(TYPE_KEYWORD, IndexOf(keywords, word), CurrentPos(), word);
    }

    /** `_get_identifier_token`. */
    method GetIdentifierToken(word: string) returns (t: Token)
      modifies this
      ensures (identifiers, t.index) == Enter(old(identifiers), word)
      ensures t == Token(TYPE_IDENTIFIER, t.index, CurrentPos(), word)
      ensures constants == old(constants) && delimiters == old(delimiters) && At() == old(At())
      ensures source == old(source) && tokenList == old(tokenList)
    {
      if word !in identifiers {
        identifiers := identifiers + [word];
      }
      t := Token(TYPE_IDENTIFIER, IndexOf(identifiers, word), CurrentPos(), word);
    }

    /** `_get_const_token`. */
    method GetConstToken(word: string) returns (t: Token)
      modifies this
      ensures (constants, t.index) == Enter(old(constants), word)
      ensures t == Token(TYPE_CONST, t.index, CurrentPos(), word)
      ensures identifiers == old(identifiers) && delimiters == old(delimiters) && At() == old(At())
      ensures source == old(source) && tokenList == old(tokenList)
    {
      if word !in constants {
        constants := constants + [word];
      }
      t := Token(TYPE_CONST, IndexOf(constants, word), CurrentPos(), word);
    }

    /** `_get_delimiter_token`. */
    method GetDelimiterToken(word: string) returns (t: Token)
      modifies this
      ensures (delimiters, t.index) == Enter(old(delimiters), word)
      ensures t == Token(TYPE_DELIMITER, t.index, CurrentPos(), word)
      ensures constants == old(constants) && identifiers == old(identifiers) && At() == old(At())
      ensures source == old(source) && tokenList == old(tokenList)
    {
      if word !in delimiters {
        delimiters := delimiters + [word];
      }
      t := Token(TYPE_DELIMITER, IndexOf(delimiters, word), CurrentPos(), word);
    }

    /** `parse`: scan `src` from the current cursor, appending to the token
      list and the tables, and return the whole token list. */
    method Parse(src: string) returns (r: Result<seq<Token>, LexError>)
      modifies this
      ensures var s := Lex(src, keywords, identifierMatch, isFloat, old(State()));
        r.Ok? == s.Ok? && (r.Err? ==> r.error == s.error) && (r.Ok? ==> State() == s.value && r.value == tokenList)
      ensures source == src
    {
      source := src;
      ghost var total := Lex(src, keywords, identifierMatch, isFloat, State());
      while true
        invariant source == src
        invariant Lex(src, keywords, identifierMatch, isFloat, State()) == total
        decreases |source| - pos
      {
        ghost var st := State();
        ghost var pass := LexPass(src, keywords, identifierMatch, isFloat, st);
        var ws := ParseWhitespaces();
        if ws.Err? {
          return Err(ws.error);
        }
        if pos == |source| {
          assert pass == Stop(Ok(State()));
          break;
        }
        var w := ParseTokenWord();
        if w.Err? {
          return Err(w.error);
        }
        var word := w.value;
        var ty := Classify(keywords, identifierMatch, isFloat, line, linePos, word);
        if ty.Err? {
          return Err(ty.error);
        }
        ghost var made := MakeToken(st.tables, keywords, if ty.value.Some? then ty.value.value else 0, word, CurrentPos());
        if ty.value == Some(TYPE_CONST) {
          var t := GetConstToken(word);
          tokenList := tokenList + [t];
        } else if ty.value == Some(TYPE_KEYWORD) {
          var t := GetKeywordToken(word);
          tokenList := tokenList + [t];
        } else if ty.value == Some(TYPE_IDENTIFIER) {
          var t := GetIdentifierToken(word);
          tokenList := tokenList + [t];
        } else if ty.value == Some(TYPE_DELIMITER) {
          var t := GetDelimiterToken(word);
          tokenList := tokenList + [t];
        } else {
          return Err(ParseError(line, linePos));
        }
        assert State() == LexState(At(), made.0, st.tokens + [made.1]);
        if pos + 1 >= |source| {
          assert pass == Stop(Ok(State()));
          break;
        }
        assert pass == Continue(State());
      }
      return Ok(tokenList);
    }
  }
}
