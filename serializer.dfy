/**
 * `HnbtSerializer`: writes a tag tree as HNBT text. Each tag is a header
 * (type keyword, optional name, ` = `) followed by a value; compounds and
 * lists put their children on their own lines between brackets, and each
 * nesting level sends its children through one more indenting appendable.
 *
 * `Render` is the text a tag comes to, stated as a function of the tree;
 * the class below writes it step by step the way the Java code does and is
 * proved to produce exactly what `Render` describes.
 */
module Serialization {
  import opened Lang
  import opened Decimal
  import opened StringUtil
  import opened Indenting
  import opened Tags

  /** `FOUR_SPACES`, the indent of every nesting level. */
  const INDENT: JString := [0x20, 0x20, 0x20, 0x20]

  const SPACE: JChar := ' ' as int
  const COMMA: JChar := ',' as int
  const OPEN_BRACE: JChar := '{' as int
  const CLOSE_BRACE: JChar := '}' as int
  const OPEN_BRACKET: JChar := '[' as int
  const CLOSE_BRACKET: JChar := ']' as int

  /** The type keywords. */
  const KW_BYTE: JString := ['b' as int, 'y' as int, 't' as int, 'e' as int]
  const KW_SHORT: JString := ['s' as int, 'h' as int, 'o' as int, 'r' as int, 't' as int]
  const KW_INT: JString := ['i' as int, 'n' as int, 't' as int]
  const KW_LONG: JString := ['l' as int, 'o' as int, 'n' as int, 'g' as int]
  const KW_FLOAT: JString := ['f' as int, 'l' as int, 'o' as int, 'a' as int, 't' as int]
  const KW_DOUBLE: JString := ['d' as int, 'o' as int, 'u' as int, 'b' as int, 'l' as int, 'e' as int]
  const KW_BYTE_ARRAY: JString := ['b' as int, 'y' as int, 't' as int, 'e' as int, '-' as int, 'a' as int, 'r' as int, 'r' as int, 'a' as int, 'y' as int]
  const KW_STRING: JString := ['s' as int, 't' as int, 'r' as int, 'i' as int, 'n' as int, 'g' as int]
  const KW_LIST: JString := ['l' as int, 'i' as int, 's' as int, 't' as int]
  const KW_COMPOUND: JString := ['c' as int, 'o' as int, 'm' as int, 'p' as int, 'o' as int, 'u' as int, 'n' as int, 'd' as int]
  const KW_INT_ARRAY: JString := ['i' as int, 'n' as int, 't' as int, '-' as int, 'a' as int, 'r' as int, 'r' as int, 'a' as int, 'y' as int]

  /** ` = `, between a header's name and the value. */
  const EQUALS: JString := [0x20, '=' as int, 0x20]

  lemma IndentHasNoNewline()
    ensures forall i | 0 <= i < |INDENT| :: INDENT[i] != NL
  {
  }

  // ---------------------------------------------------------------------
  // The text a tag comes to

  /** The type keyword each per-type writer passes on; only the end tag, which no writer handles, has none. */
  function Keyword(t: Tag): (r: JString)
    ensures r == [] <==> t.EndTag?
  {
    match t
    case EndTag => []
    case ByteTag(_) => KW_BYTE
    case ShortTag(_) => KW_SHORT
    case IntTag(_) => KW_INT
    case LongTag(_) => KW_LONG
    case FloatTag(_) => KW_FLOAT
    case DoubleTag(_) => KW_DOUBLE
    case ByteArrayTag(_) => KW_BYTE_ARRAY
    case StringTag(_) => KW_STRING
    case ListTag(_, _) => KW_LIST
    case CompoundTag(_) => KW_COMPOUND
    case IntArrayTag(_) => KW_INT_ARRAY
  }

  /**
   * `writePreTag`: the keyword, then a space and the name when there is a
   * name, then ` = `. A name the HNBT lexer does not read as a tag name
   * (`isName`, standing for that check) is rejected.
   */
  function Header(isName: JString -> bool, keyword: JString, name: Option<JString>): (r: Result<JString>)
    ensures r.Err? <==> name.Some? && !isName(name.value)
    ensures r.Err? ==> r.error == IllegalArgument
    ensures r.Ok? ==> r.value == keyword + (if name.Some? then [SPACE] + name.value else []) + EQUALS
  {
    match name
    case None => Ok(keyword + EQUALS)
    case Some(n) => if isName(n) then Ok(keyword + [SPACE] + n + EQUALS) else Err(IllegalArgument)
  }

  /**
   * The `toString` a scalar tag's value is written with; strings go through
   * `escapedString`. An integral value's text reads back as the value, and
   * a string's text is a quoted literal whose body reads back as the string.
   */
  function ScalarText(t: Tag): (r: JString)
    requires IsScalar(t)
    ensures t.ByteTag? ==> IsIntegerLiteral(r) && IntegerValue(r) == t.byteValue
    ensures t.ShortTag? ==> IsIntegerLiteral(r) && IntegerValue(r) == t.shortValue
    ensures t.IntTag? ==> IsIntegerLiteral(r) && IntegerValue(r) == t.intValue
    ensures t.LongTag? ==> IsIntegerLiteral(r) && IntegerValue(r) == t.longValue
    ensures t.StringTag? ==>
      && 2 <= |r| && r[0] == QUOTE && r[|r| - 1] == QUOTE
      && ReadBody(r[1..|r| - 1]) == Ok(t.stringValue)
  {
    match t
    case ByteTag(v) => DecimalRoundTrip(v); DecimalString(v)
    case ShortTag(v) => DecimalRoundTrip(v); DecimalString(v)
    case IntTag(v) => DecimalRoundTrip(v); DecimalString(v)
    case LongTag(v) => DecimalRoundTrip(v); DecimalString(v)
    case FloatTag(text) => text
    case DoubleTag(text) => text
    case StringTag(v) =>
      var lit := Literal(v);
      EscapeRoundTrip(v);
      assert lit[1..|lit| - 1] == EscapedBody(v);
      lit
  }

  /** The keyword tells the tag class: two tags get the same keyword exactly when they are of the same class. */
  lemma KeywordIdentifiesKind(a: Tag, b: Tag)
    ensures Keyword(a) == Keyword(b) <==> KindOf(a) == KindOf(b)
  {
  }

  /** One child's line: its text, a comma unless it is the last child, and a newline. */
  function Entry(piece: JString, isLast: bool): JString
  {
    piece + (if isLast then [] else [COMMA]) + [NL]
  }

  /** The lines of the first `|ps|` children of a container with `total` children. */
  function LinesOf(ps: seq<JString>, total: nat): JString
    decreases |ps|
  {
    if ps == [] then [] else LinesOf(ps[..|ps| - 1], total) + Entry(ps[|ps| - 1], |ps| == total)
  }

  /** What goes between the brackets: nothing for no children, else a newline and one line per child. */
  function Block(ps: seq<JString>): JString
  {
    if ps == [] then [] else [NL] + LinesOf(ps, |ps|)
  }

  /** A block as the enclosing level writes it: through one more indenting appendable. */
  function Nested(body: JString): JString
  {
    Filter(INDENT, false, body)
  }

  /**
   * The text of `t` under `name`, or the exception the writer throws: an
   * end tag is not something it knows how to write, and every name must pass
   * the name check.
   */
  function Render(isName: JString -> bool, t: Tag, name: Option<JString>): (r: Result<JString>)
    ensures r.Err? ==> r.error == IllegalArgument
    decreases t, 2
  {
    if t.EndTag? then Err(IllegalArgument)
    else
      var header :- Header(isName, Keyword(t), name);
      if t.CompoundTag? then
        var ps :- CompoundPieces(isName, t, |t.entries|);
        Ok(header + [OPEN_BRACE] + Nested(Block(ps)) + [CLOSE_BRACE])
      else if IsListLike(t) then
        var ps :- ListLikePieces(isName, t, ItemCount(t));
        Ok(header + [OPEN_BRACKET] + Nested(Block(ps)) + [CLOSE_BRACKET])
      else
        Ok(header + ScalarText(t))
  }

  /** The texts of the first `i` entries of a compound, each under its key. */
  function CompoundPieces(isName: JString -> bool, t: Tag, i: nat): (r: Result<seq<JString>>)
    requires t.CompoundTag? && i <= |t.entries|
    ensures r.Ok? ==> |r.value| == i
    ensures r.Err? ==> r.error == IllegalArgument
    decreases t, 1, i
  {
    if i == 0 then Ok([])
    else
      var ps :- CompoundPieces(isName, t, i - 1);
      var p :- EntryPiece(isName, t, i - 1);
      Ok(ps + [p])
  }

  /** The text of entry `j` of a compound: its tag under its key. */
  function EntryPiece(isName: JString -> bool, t: Tag, j: nat): (r: Result<JString>)
    requires t.CompoundTag? && j < |t.entries|
    ensures r.Err? ==> r.error == IllegalArgument
    decreases t, 0
  {
    Render(isName, t.entries[j].1, Some(t.entries[j].0))
  }

  /** The text of element `j` of a list-like tag: a nameless tag for a list, a bare number for an array. */
  function ItemPiece(isName: JString -> bool, t: Tag, j: nat): (r: Result<JString>)
    requires IsListLike(t) && j < ItemCount(t)
    ensures r.Err? ==> t.ListTag? && r.error == IllegalArgument
    decreases t, 0
  {
    match t
    case ListTag(_, items) => Render(isName, items[j], None)
    case ByteArrayTag(bytes) => Ok(DecimalString(bytes[j]))
    case IntArrayTag(ints) => Ok(DecimalString(ints[j]))
  }

  /** The texts of the first `i` elements of a list-like tag. */
  function ListLikePieces(isName: JString -> bool, t: Tag, i: nat): (r: Result<seq<JString>>)
    requires IsListLike(t) && i <= ItemCount(t)
    ensures r.Ok? ==> |r.value| == i
    ensures r.Err? ==> r.error == IllegalArgument
    decreases t, 1, i
  {
    if i == 0 then Ok([])
    else
      var ps :- ListLikePieces(isName, t, i - 1);
      var p :- ItemPiece(isName, t, i - 1);
      Ok(ps + [p])
  }

  // ---------------------------------------------------------------------
  // Properties of the rendering

  /** The trees the writer accepts: no end tag anywhere, and every key in every compound a valid name. */
  predicate Serializable(isName: JString -> bool, t: Tag)
    decreases t, 1
  {
    match t
    case EndTag => false
    case CompoundTag(entries) => forall j | 0 <= j < |entries| :: EntryAccepted(isName, t, j)
    case ListTag(_, items) => forall j | 0 <= j < |items| :: Serializable(isName, items[j])
    case _ => true
  }

  /** Entry `j` of compound `t` has a valid key and a tree the writer accepts. */
  predicate EntryAccepted(isName: JString -> bool, t: Tag, j: nat)
    requires t.CompoundTag? && j < |t.entries|
    decreases t, 0
  {
    isName(t.entries[j].0) && Serializable(isName, t.entries[j].1)
  }

  /** Where a rendering can fail: the end tag, the header, or one of the children. */
  lemma RenderParts(isName: JString -> bool, t: Tag, name: Option<JString>)
    ensures Render(isName, t, name).Ok? <==>
      && !t.EndTag?
      && (name.Some? ==> isName(name.value))
      && (t.CompoundTag? ==> CompoundPieces(isName, t, |t.entries|).Ok?)
      && (IsListLike(t) ==> ListLikePieces(isName, t, ItemCount(t)).Ok?)
  {
  }

  /** The writer succeeds exactly on the trees it accepts, under a name it accepts. */
  lemma {:induction false} RenderSucceeds(isName: JString -> bool, t: Tag, name: Option<JString>)
    ensures Render(isName, t, name).Ok? <==> Serializable(isName, t) && (name.Some? ==> isName(name.value))
    decreases t, 2
  {
    RenderParts(isName, t, name);
    match t
    case CompoundTag(entries) =>
      CompoundPiecesSucceed(isName, t, |entries|);
      assert CompoundPieces(isName, t, |t.entries|).Ok? <==> forall j | 0 <= j < |t.entries| :: EntryAccepted(isName, t, j);
      var accepted := forall j | 0 <= j < |entries| :: EntryAccepted(isName, t, j);
      assert CompoundPieces(isName, t, |entries|).Ok? == accepted;
      assert Serializable(isName, t) == accepted;
    case ListTag(_, items) =>
      ListLikePiecesSucceed(isName, t, |items|);
    case ByteArrayTag(_) =>
      ListLikePiecesSucceed(isName, t, ItemCount(t));
    case IntArrayTag(_) =>
      ListLikePiecesSucceed(isName, t, ItemCount(t));
    case _ =>
  }

  lemma {:induction false} CompoundPiecesSucceed(isName: JString -> bool, t: Tag, i: nat)
    requires t.CompoundTag? && i <= |t.entries|
    ensures CompoundPieces(isName, t, i).Ok? <==> forall j | 0 <= j < i :: EntryAccepted(isName, t, j)
    decreases t, 1, i
  {
    if i > 0 {
      var e := t.entries[i - 1];
      CompoundPiecesOkStep(isName, t, i);
      EntriesAcceptedStep(isName, t, i);
      CompoundPiecesSucceed(isName, t, i - 1);
      assert EntryPiece(isName, t, i - 1).Ok? <==> EntryAccepted(isName, t, i - 1) by {
        RenderSucceeds(isName, e.1, Some(e.0));
      }
    }
  }

  lemma {:induction false} ListLikePiecesSucceed(isName: JString -> bool, t: Tag, i: nat)
    requires IsListLike(t) && i <= ItemCount(t)
    ensures ListLikePieces(isName, t, i).Ok? <==>
      (t.ListTag? ==> forall j | 0 <= j < i :: Serializable(isName, t.items[j]))
    decreases t, 1, i
  {
    if i > 0 {
      assert ListLikePieces(isName, t, i - 1).Ok? <==>
        (t.ListTag? ==> forall j | 0 <= j < i - 1 :: Serializable(isName, t.items[j])) by {
        ListLikePiecesSucceed(isName, t, i - 1);
      }
      ListLikePiecesOkStep(isName, t, i);
      if t.ListTag? {
        assert ItemPiece(isName, t, i - 1).Ok? <==> Serializable(isName, t.items[i - 1]) by {
          RenderSucceeds(isName, t.items[i - 1], None);
        }
        ItemsSerializableStep(isName, t.items, i);
      }
    }
  }

  /** One more child: the first `i` render exactly when the first `i - 1` and child `i - 1` do. */
  lemma CompoundPiecesOkStep(isName: JString -> bool, t: Tag, i: nat)
    requires t.CompoundTag? && 0 < i <= |t.entries|
    ensures CompoundPieces(isName, t, i).Ok? <==> CompoundPieces(isName, t, i - 1).Ok? && EntryPiece(isName, t, i - 1).Ok?
  {
  }

  lemma ListLikePiecesOkStep(isName: JString -> bool, t: Tag, i: nat)
    requires IsListLike(t) && 0 < i <= ItemCount(t)
    ensures ListLikePieces(isName, t, i).Ok? <==> ListLikePieces(isName, t, i - 1).Ok? && ItemPiece(isName, t, i - 1).Ok?
  {
  }

  lemma EntriesAcceptedStep(isName: JString -> bool, t: Tag, i: nat)
    requires t.CompoundTag? && 0 < i <= |t.entries|
    ensures (forall j | 0 <= j < i :: EntryAccepted(isName, t, j)) <==>
      (forall j | 0 <= j < i - 1 :: EntryAccepted(isName, t, j)) && EntryAccepted(isName, t, i - 1)
  {
  }

  lemma ItemsSerializableStep(isName: JString -> bool, items: seq<Tag>, i: nat)
    requires 0 < i <= |items|
    ensures (forall j | 0 <= j < i :: Serializable(isName, items[j])) <==>
      (forall j | 0 <= j < i - 1 :: Serializable(isName, items[j])) && Serializable(isName, items[i - 1])
  {
  }

  /** The children separated by `sep`, as a reference for the line layout. */
  function Join(ps: seq<JString>, sep: JString): JString
    decreases |ps|
  {
    if ps == [] then [] else if |ps| == 1 then ps[0] else ps[0] + sep + Join(ps[1..], sep)
  }

  lemma {:induction false} JoinSnoc(ps: seq<JString>, p: JString, sep: JString)
    requires ps != []
    ensures Join(ps + [p], sep) == Join(ps, sep) + sep + p
    decreases |ps|
  {
    if |ps| == 1 {
      assert (ps + [p])[1..] == [p];
    } else {
      assert (ps + [p])[1..] == ps[1..] + [p];
      JoinSnoc(ps[1..], p, sep);
    }
  }

  /** Lines of a prefix of the children: every line but the last of the container ends in `,\n`. */
  lemma {:induction false} LinesOfPrefix(ps: seq<JString>, total: nat)
    requires 0 < |ps| < total
    ensures LinesOf(ps, total) == Join(ps, [COMMA, NL]) + [COMMA, NL]
    decreases |ps|
  {
    var n := |ps|;
    if n == 1 {
      assert ps[..0] == [];
    } else {
      LinesOfPrefix(ps[..n - 1], total);
      assert ps[..n - 1] + [ps[n - 1]] == ps;
      JoinSnoc(ps[..n - 1], ps[n - 1], [COMMA, NL]);
    }
  }

  /**
   * A non-empty block is a newline, the children separated by `,\n`, and a
   * final newline: no comma follows the last child.
   */
  lemma BlockLayout(ps: seq<JString>)
    requires ps != []
    ensures Block(ps) == [NL] + Join(ps, [COMMA, NL]) + [NL]
  {
    var n := |ps|;
    var init, last := ps[..n - 1], ps[n - 1];
    assert Entry(last, true) == last + [NL];
    if n == 1 {
      assert init == [];
      assert LinesOf(ps, n) == last + [NL];
    } else {
      LinesOfPrefix(init, n);
      assert init + [last] == ps;
      JoinSnoc(init, last, [COMMA, NL]);
      calc {
        Block(ps);
        [NL] + (LinesOf(init, n) + Entry(last, true));
        [NL] + ((Join(init, [COMMA, NL]) + [COMMA, NL]) + (last + [NL]));
        [NL] + (Join(init, [COMMA, NL]) + [COMMA, NL] + last) + [NL];
      }
    }
  }

  /** Containers without children close right after they open. */
  lemma EmptyContainers(isName: JString -> bool, name: Option<JString>, kind: TagKind)
    requires name.Some? ==> isName(name.value)
    ensures Render(isName, CompoundTag([]), name) == Ok(Header(isName, KW_COMPOUND, name).value + [OPEN_BRACE, CLOSE_BRACE])
    ensures Render(isName, ListTag(kind, []), name) == Ok(Header(isName, KW_LIST, name).value + [OPEN_BRACKET, CLOSE_BRACKET])
    ensures Render(isName, ByteArrayTag([]), name) == Ok(Header(isName, KW_BYTE_ARRAY, name).value + [OPEN_BRACKET, CLOSE_BRACKET])
    ensures Render(isName, IntArrayTag([]), name) == Ok(Header(isName, KW_INT_ARRAY, name).value + [OPEN_BRACKET, CLOSE_BRACKET])
  {
    assert Nested(Block([])) == [];
    EmptyContainer(isName, CompoundTag([]), name, OPEN_BRACE, CLOSE_BRACE);
    EmptyContainer(isName, ListTag(kind, []), name, OPEN_BRACKET, CLOSE_BRACKET);
    EmptyContainer(isName, ByteArrayTag([]), name, OPEN_BRACKET, CLOSE_BRACKET);
    EmptyContainer(isName, IntArrayTag([]), name, OPEN_BRACKET, CLOSE_BRACKET);
  }

  lemma EmptyContainer(isName: JString -> bool, t: Tag, name: Option<JString>, open: JChar, close: JChar)
    requires name.Some? ==> isName(name.value)
    requires (t.CompoundTag? && t.entries == [] && open == OPEN_BRACE && close == CLOSE_BRACE)
          || (IsListLike(t) && ItemCount(t) == 0 && open == OPEN_BRACKET && close == CLOSE_BRACKET)
    ensures Render(isName, t, name) == Ok(Header(isName, Keyword(t), name).value + [open, close])
  {
    var h := Header(isName, Keyword(t), name).value;
    assert Nested(Block([])) == [];
    assert h + [open] + [] + [close] == h + [open, close];
  }

  predicate NoNewline(s: JString) { forall i | 0 <= i < |s| :: s[i] != NL }

  /** The indented lines of the first `|ps|` children of a container with `total` children. */
  function IndentedLines(ps: seq<JString>, total: nat): JString
    decreases |ps|
  {
    if ps == [] then [] else IndentedLines(ps[..|ps| - 1], total) + (INDENT + Entry(ps[|ps| - 1], |ps| == total))
  }

  lemma NoNewlineFilter(last: bool, s: JString)
    requires s != [] && NoNewline(s)
    ensures Filter(INDENT, last, s) == (if last then INDENT else []) + s
    ensures !After(last, s)
    decreases |s|
  {
    if |s| > 1 {
      NoNewlineFilter(false, s[1..]);
      assert [s[0]] + s[1..] == s;
    }
  }

  /** After a newline, a one-line child's line is one indent, the line, and the newline bit set again. */
  lemma NestedLine(piece: JString, isLast: bool)
    requires piece != [] && NoNewline(piece)
    ensures Filter(INDENT, true, Entry(piece, isLast)) == INDENT + Entry(piece, isLast)
    ensures After(true, Entry(piece, isLast))
  {
    var text := piece + (if isLast then [] else [COMMA]);
    assert Entry(piece, isLast) == text + [NL];
    assert NoNewline(text);
    NoNewlineFilter(true, text);
    FilterConcat(INDENT, true, text, [NL]);
    assert [NL][1..] == [];
    assert Filter(INDENT, false, [NL]) == [NL];
    AfterConcat(true, text, [NL]);
  }

  /**
   * One nesting level adds one indent before each line of a block and
   * nothing else, whatever the children contain: taking one indent off each
   * line again gives back the block.
   */
  lemma NestedUnindent(body: JString)
    ensures Unindent(INDENT, false, Nested(body)) == Some(body)
  {
    IndentHasNoNewline();
    UnindentFilter(INDENT, false, body);
  }

  /** Children that fit on one line each get exactly one indent in front of their line. */
  lemma {:induction false} NestedLines(ps: seq<JString>, total: nat)
    requires |ps| <= total
    requires forall i | 0 <= i < |ps| :: ps[i] != [] && NoNewline(ps[i])
    ensures Filter(INDENT, true, LinesOf(ps, total)) == IndentedLines(ps, total)
    ensures After(true, LinesOf(ps, total))
    decreases |ps|
  {
    if ps != [] {
      var n := |ps|;
      var init := ps[..n - 1];
      var line := Entry(ps[n - 1], n == total);
      var lines, indented := LinesOf(init, total), IndentedLines(init, total);
      assert Filter(INDENT, true, lines) == indented && After(true, lines) by {
        assert forall i | 0 <= i < |init| :: init[i] == ps[i];
        NestedLines(init, total);
      }
      assert Filter(INDENT, true, line) == INDENT + line && After(true, line) by {
        NestedLine(ps[n - 1], n == total);
      }
      assert LinesOf(ps, total) == lines + line;
      assert IndentedLines(ps, total) == indented + (INDENT + line);
      FilterConcat(INDENT, true, lines, line);
      AfterConcat(true, lines, line);
    }
  }

  lemma NestedOneLineBlock(ps: seq<JString>)
    requires ps != []
    requires forall i | 0 <= i < |ps| :: ps[i] != [] && NoNewline(ps[i])
    ensures Nested(Block(ps)) == [NL] + IndentedLines(ps, |ps|)
  {
    var lines := LinesOf(ps, |ps|);
    assert Filter(INDENT, false, [NL]) == [NL] && After(false, [NL]) by {
      FilterOne(INDENT, false, NL);
    }
    assert Filter(INDENT, true, lines) == IndentedLines(ps, |ps|) by {
      NestedLines(ps, |ps|);
    }
    FilterConcat(INDENT, false, [NL], lines);
  }

  // ---------------------------------------------------------------------
  // The chain of indenting appendables

  /**
   * What reaches the root target when `s` is appended at the level whose
   * appendables, outermost first, have the newline bits `states`, and the
   * bits afterwards. Level 0 is the root target itself.
   */
  function Pass(states: seq<bool>, s: JString): (r: (JString, seq<bool>))
    ensures |r.1| == |states|
    decreases |states|
  {
    if states == [] then (s, [])
    else
      var k := |states| - 1;
      var outer := Pass(states[..k], Filter(INDENT, states[k], s));
      (outer.0, outer.1 + [After(states[k], s)])
  }

  /** Appending `a` and then `b` through the chain passes on what appending `a + b` does. */
  lemma {:induction false} PassConcat(states: seq<bool>, a: JString, b: JString)
    ensures Pass(states, a + b).0 == Pass(states, a).0 + Pass(Pass(states, a).1, b).0
    ensures Pass(states, a + b).1 == Pass(Pass(states, a).1, b).1
    decreases |states|
  {
    if states != [] {
      var k := |states| - 1;
      var fa := Filter(INDENT, states[k], a);
      var mid := After(states[k], a);
      var fb := Filter(INDENT, mid, b);
      FilterConcat(INDENT, states[k], a, b);
      AfterConcat(states[k], a, b);
      PassConcat(states[..k], fa, fb);
      var sa := Pass(states, a).1;
      assert sa[..k] == Pass(states[..k], fa).1;
      assert sa[k] == mid;
    }
  }

  /** Appending at one level deeper is appending the indented text at this level. */
  lemma PassDeeper(states: seq<bool>, s: JString)
    requires states != [] && (s == [] || s[0] == NL)
    ensures var k := |states| - 1;
      Pass(states, s).0 == Pass(states[..k], Nested(s)).0
      && Pass(states, s).1 == Pass(states[..k], Nested(s)).1 + [After(states[k], s)]
  {
    if s != [] {
      LeadingNewlineForgetsState(INDENT, s);
    }
  }

  /**
   * A block that the next level writes as its opening newline and then its
   * lines reaches the root as the indented block would from this level.
   */
  lemma PassNestedBlock(states: seq<bool>, text0: JString, opening: JString, lines: JString)
    requires states != [] && (opening == [] || opening == [NL]) && (opening == [] ==> lines == [])
    ensures var k := |states| - 1;
      var mid := Pass(states, opening).1;
      text0 + Pass(states, opening).0 + Pass(mid, lines).0 == text0 + Pass(states[..k], Nested(opening + lines)).0
      && Pass(mid, lines).1[..k] == Pass(states[..k], Nested(opening + lines)).1
  {
    PassThen(states, text0, opening, lines);
    PassDeeper(states, opening + lines);
  }

  /** Appending nothing passes nothing on and leaves every bit as it was. */
  lemma {:induction false} PassEmpty(states: seq<bool>)
    ensures Pass(states, []) == ([], states)
    decreases |states|
  {
    if states != [] {
      var k := |states| - 1;
      PassEmpty(states[..k]);
      assert states[..k] + [states[k]] == states;
    }
  }

  /** The form the writers use `PassConcat` in: what `a` passed on, then what `b` passes on from there. */
  lemma PassThen(states: seq<bool>, text0: JString, a: JString, b: JString)
    ensures text0 + Pass(states, a).0 + Pass(Pass(states, a).1, b).0 == text0 + Pass(states, a + b).0
    ensures Pass(Pass(states, a).1, b).1 == Pass(states, a + b).1
  {
    PassConcat(states, a, b);
  }

  /** One character through the chain: the innermost appendable's indent if due, then the character, sent on outward. */
  lemma PassChar(states: seq<bool>, c: JChar)
    requires states != []
    ensures var k := |states| - 1;
      var sent := Pass(states[..k], (if states[k] && c != NL then INDENT else []) + [c]);
      Pass(states, [c]) == (sent.0, sent.1 + [c == NL])
  {
    FilterOne(INDENT, states[|states| - 1], c);
  }

  /** Setting the bit just after a prefix `p` keeps `p` and the bits after the one replaced. */
  lemma UpdateAfter(xs: seq<bool>, p: seq<bool>, tail: seq<bool>, b: bool)
    requires xs == p + tail && tail != []
    ensures xs[|p| := b] == p + [b] + tail[1..]
  {
  }

  /** The first `i` children's texts do not depend on the later children. */
  lemma {:induction false} CompoundPiecesPrefix(isName: JString -> bool, t: Tag, i: nat, n: nat)
    requires t.CompoundTag? && i <= n <= |t.entries|
    ensures CompoundPieces(isName, t, n).Ok? ==>
      CompoundPieces(isName, t, i).Ok? && CompoundPieces(isName, t, n).value[..i] == CompoundPieces(isName, t, i).value
    decreases n
  {
    if i < n {
      CompoundPiecesPrefix(isName, t, i, n - 1);
      if CompoundPieces(isName, t, n).Ok? {
        var ps := CompoundPieces(isName, t, n - 1).value;
        assert CompoundPieces(isName, t, n).value[..i] == ps[..i];
      }
    } else {
      if CompoundPieces(isName, t, n).Ok? {
        assert CompoundPieces(isName, t, n).value[..i] == CompoundPieces(isName, t, n).value;
      }
    }
  }

  lemma {:induction false} ListLikePiecesPrefix(isName: JString -> bool, t: Tag, i: nat, n: nat)
    requires IsListLike(t) && i <= n <= ItemCount(t)
    ensures ListLikePieces(isName, t, n).Ok? ==>
      ListLikePieces(isName, t, i).Ok? && ListLikePieces(isName, t, n).value[..i] == ListLikePieces(isName, t, i).value
    decreases n
  {
    if i < n {
      ListLikePiecesPrefix(isName, t, i, n - 1);
      if ListLikePieces(isName, t, n).Ok? {
        var ps := ListLikePieces(isName, t, n - 1).value;
        assert ListLikePieces(isName, t, n).value[..i] == ps[..i];
      }
    } else {
      if ListLikePieces(isName, t, n).Ok? {
        assert ListLikePieces(isName, t, n).value[..i] == ListLikePieces(isName, t, n).value;
      }
    }
  }

  /** A compound's text: its header, `{`, the nested block of its entries, and `}`. */
  lemma RenderCompound(isName: JString -> bool, t: Tag, name: Option<JString>)
    requires t.CompoundTag?
    ensures Render(isName, t, name).Ok? <==>
      Header(isName, KW_COMPOUND, name).Ok? && CompoundPieces(isName, t, |t.entries|).Ok?
    ensures Render(isName, t, name).Ok? ==>
      Render(isName, t, name).value ==
      Header(isName, KW_COMPOUND, name).value + [OPEN_BRACE] + Nested(Block(CompoundPieces(isName, t, |t.entries|).value)) + [CLOSE_BRACE]
  {
  }

  /** A list-like tag's text: its header, `[`, the nested block of its elements, and `]`. */
  lemma RenderListLike(isName: JString -> bool, t: Tag, name: Option<JString>)
    requires IsListLike(t)
    ensures Render(isName, t, name).Ok? <==>
      Header(isName, Keyword(t), name).Ok? && ListLikePieces(isName, t, ItemCount(t)).Ok?
    ensures Render(isName, t, name).Ok? ==>
      Render(isName, t, name).value ==
      Header(isName, Keyword(t), name).value + [OPEN_BRACKET] + Nested(Block(ListLikePieces(isName, t, ItemCount(t)).value)) + [CLOSE_BRACKET]
  {
  }

  /** Entry `i` written: the first `i + 1` texts are the first `i` and that entry's. */
  lemma CompoundPiecesStep(isName: JString -> bool, t: Tag, i: nat)
    requires t.CompoundTag? && i < |t.entries|
    requires CompoundPieces(isName, t, i).Ok? && EntryPiece(isName, t, i).Ok?
    ensures CompoundPieces(isName, t, i + 1) == Ok(CompoundPieces(isName, t, i).value + [EntryPiece(isName, t, i).value])
  {
  }

  lemma ListLikePiecesStep(isName: JString -> bool, t: Tag, i: nat)
    requires IsListLike(t) && i < ItemCount(t)
    requires ListLikePieces(isName, t, i).Ok? && ItemPiece(isName, t, i).Ok?
    ensures ListLikePieces(isName, t, i + 1) == Ok(ListLikePieces(isName, t, i).value + [ItemPiece(isName, t, i).value])
  {
  }

  /** One more child line: the lines of `ps + [p]` are those of `ps` and then `p`'s. */
  lemma LinesOfSnoc(ps: seq<JString>, p: JString, total: nat)
    ensures LinesOf(ps + [p], total) == LinesOf(ps, total) + Entry(p, |ps| + 1 == total)
  {
    assert (ps + [p])[..|ps|] == ps;
  }

  // ---------------------------------------------------------------------
  // The writer

  /**
   * The serializer and the serializers nested under it. In the Java code
   * each level is an object holding the next one, whose target is an
   * `IndentAddingAppendable` around this level's target; here the chain is
   * one object, `indents` holding the newline bit of each level's
   * appendable, outermost first, and level `k` writing through the first `k`
   * of them. Each level is created on first use and then kept, bit and all.
   */
  class HnbtSerializer {
    /** Whether the HNBT lexer reads a string as a tag name. */
    const isName: JString -> bool
    const target: CharSink
    var indents: seq<bool>

    constructor (isName: JString -> bool, target: CharSink)
      ensures this.isName == isName && this.target == target
      ensures indents == []
    {
      this.isName := isName;
      this.target := target;
      indents := [];
    }

    /**
     * The root target holds `text0` and then what writing `s` at `level`
     * from the bits `states0` passes on, and the first `level` bits are
     * those after it.
     */
    ghost predicate Wrote(level: nat, text0: JString, states0: seq<bool>, s: JString)
      reads this, target
    {
      level <= |indents| && target.text == text0 + Pass(states0, s).0 && indents[..level] == Pass(states0, s).1
    }

    /**
     * `target.append(s)` at nesting level `level`: the root target's own
     * append at level 0; otherwise each character goes to the appendable of
     * this level, which sends the indent first to the level above when the
     * character follows a newline and is not one, then the character.
     */
    method Put(level: nat, s: JString)
      requires level <= |indents|
      modifies this, target
      ensures target.text == old(target.text) + Pass(old(indents[..level]), s).0
      ensures indents == Pass(old(indents[..level]), s).1 + old(indents[level..])
      decreases level, 1
    {
      if level == 0 {
        target.Append(s);
        assert indents[0..] == indents;
        return;
      }
      ghost var text0, states0, rest := target.text, indents[..level], indents[level..];
      assert s[..0] == [];
      PassEmpty(states0);
      var i := 0;
      while i < |s|
        invariant 0 <= i <= |s|
        invariant target.text == text0 + Pass(states0, s[..i]).0
        invariant indents == Pass(states0, s[..i]).1 + rest
      {
        PutChar(level, s[i]);
        assert s[..i + 1] == s[..i] + [s[i]];
        PassThen(states0, text0, s[..i], [s[i]]);
        i := i + 1;
      }
      assert s[..i] == s;
    }

    /**
     * `append(char)` of the appendable of level `level`: the indent to the
     * level above when `c` follows a newline and is not one, then `c`.
     */
    method PutChar(level: nat, c: JChar)
      requires 0 < level <= |indents|
      modifies this, target
      ensures target.text == old(target.text) + Pass(old(indents[..level]), [c]).0
      ensures indents == Pass(old(indents[..level]), [c]).1 + old(indents[level..])
      decreases level, 0
    {
      var k := level - 1;
      ghost var states, text, tail := indents[..level], target.text, indents[k..];
      assert states[..k] == indents[..k];
      assert tail[1..] == indents[level..];
      assert indents == indents[..k] + tail;
      ghost var piece := PutIndentIfDue(k, indents[k] && c != NL);
      Put(k, [c]);
      PassThen(states[..k], text, piece, [c]);
      ghost var sent := Pass(states[..k], piece + [c]);
      UpdateAfter(indents, sent.1, tail, c == NL);
      indents := indents[k := c == NL];
      PassChar(states, c);
    }

    /** The indent an appendable sends on before a character, when it is due. */
    method PutIndentIfDue(level: nat, due: bool) returns (ghost piece: JString)
      requires level <= |indents|
      modifies this, target
      ensures piece == if due then INDENT else []
      ensures target.text == old(target.text) + Pass(old(indents[..level]), piece).0
      ensures indents == Pass(old(indents[..level]), piece).1 + old(indents[level..])
      decreases level, 2
    {
      if due {
        Put(level, INDENT);
        piece := INDENT;
      } else {
        PassEmpty(indents[..level]);
        assert indents == indents[..level] + indents[level..];
        piece := [];
      }
    }

    /** `getIndentedSerializer`: the next level, created with a clear newline bit the first time it is asked for. */
    method GetIndented(level: nat)
      requires level <= |indents|
      modifies this
      ensures indents == if level < old(|indents|) then old(indents) else old(indents) + [false]
    {
      if level == |indents| {
        indents := indents + [false];
      }
    }

    /**
     * The next level, and the newline it writes first when the block has
     * children; `states1` are the bits of the chain down to that level
     * before the newline.
     */
    method OpenBlock(level: nat, nonEmpty: bool) returns (ghost states1: seq<bool>, ghost opening: JString)
      requires level <= |indents|
      modifies this, target
      ensures |states1| == level + 1 && states1[..level] == old(indents[..level])
      ensures opening == if nonEmpty then [NL] else []
      ensures |indents| > level && |indents| >= old(|indents|)
      ensures Wrote(level + 1, old(target.text), states1, opening)
    {
      GetIndented(level);
      states1 := indents[..level + 1];
      opening := [];
      PassEmpty(states1);
      if nonEmpty {
        Put(level + 1, [NL]);
        opening := [NL];
      }
    }

    /** `writePreTag`: the keyword, the name if there is one, and ` = `; a name that is not a tag name throws. */
    method WritePreTag(level: nat, keyword: JString, name: Option<JString>) returns (r: Result<()>)
      requires level <= |indents|
      modifies this, target
      ensures r.Ok? <==> Header(isName, keyword, name).Ok?
      ensures r.Err? ==> r.error == IllegalArgument
      ensures |indents| == old(|indents|)
      ensures r.Ok? ==> Wrote(level, old(target.text), old(indents[..level]), Header(isName, keyword, name).value)
    {
      ghost var text0, states0 := target.text, indents[..level];
      Put(level, keyword);
      ghost var written := keyword;
      if name.Some? {
        if !isName(name.value) {
          return Err(IllegalArgument);
        }
        Put(level, [SPACE]);
        PassThen(states0, text0, written, [SPACE]);
        written := written + [SPACE];
        Put(level, name.value);
        PassThen(states0, text0, written, name.value);
        written := written + name.value;
      }
      Put(level, EQUALS);
      PassThen(states0, text0, written, EQUALS);
      written := written + EQUALS;
      assert written == Header(isName, keyword, name).value;
      return Ok(());
    }

    /** `writeSimpleTag`: the header and then the value's text. */
    method WriteSimpleTag(level: nat, keyword: JString, value: JString, name: Option<JString>) returns (r: Result<()>)
      requires level <= |indents|
      modifies this, target
      ensures r.Ok? <==> Header(isName, keyword, name).Ok?
      ensures r.Err? ==> r.error == IllegalArgument
      ensures |indents| == old(|indents|)
      ensures r.Ok? ==> Wrote(level, old(target.text), old(indents[..level]), Header(isName, keyword, name).value + value)
    {
      ghost var text0, states0 := target.text, indents[..level];
      r := WritePreTag(level, keyword, name);
      if r.Err? {
        return;
      }
      Put(level, value);
      PassThen(states0, text0, Header(isName, keyword, name).value, value);
    }

    /** `writePreTag` and then the bracket that opens a container. */
    method WriteOpening(level: nat, keyword: JString, name: Option<JString>, bracket: JChar) returns (r: Result<()>)
      requires level <= |indents|
      modifies this, target
      ensures r.Ok? <==> Header(isName, keyword, name).Ok?
      ensures |indents| == old(|indents|)
      ensures r.Ok? ==> Wrote(level, old(target.text), old(indents[..level]), Header(isName, keyword, name).value + [bracket])
    {
      ghost var text0, states0 := target.text, indents[..level];
      r := WritePreTag(level, keyword, name);
      if r.Err? {
        return;
      }
      Put(level, [bracket]);
      PassThen(states0, text0, Header(isName, keyword, name).value, [bracket]);
    }
  
    /**
     * `writeAnyTag` together with the per-type writers it dispatches to; an
     * end tag is a type it does not know how to write.
     */
    method WriteAnyTag(level: nat, t: Tag, name: Option<JString>) returns (r: Result<()>)
      requires level <= |indents|
      modifies this, target
      ensures r.Ok? <==> Render(isName, t, name).Ok?
      ensures r.Err? ==> r.error == IllegalArgument
      ensures |indents| >= old(|indents|)
      ensures r.Ok? ==> Wrote(level, old(target.text), old(indents[..level]), Render(isName, t, name).value)
      decreases t, 2
    {
      if t.EndTag? {
        return Err(IllegalArgument);
      } else if t.CompoundTag? {
        r := WriteCompoundTag(level, t, name);
      } else if IsListLike(t) {
        r := WriteListLikeTag(level, t, name);
      } else {
        r := WriteSimpleTag(level, Keyword(t), ScalarText(t), name);
      }
    }

    /**
     * `writeCompoundTag`: the header and `{`, the entries through the next
     * level, and `}`.
     */
    method WriteCompoundTag(level: nat, t: Tag, name: Option<JString>) returns (r: Result<()>)
      requires t.CompoundTag? && level <= |indents|
      modifies this, target
      ensures r.Ok? <==> Render(isName, t, name).Ok?
      ensures r.Err? ==> r.error == IllegalArgument
      ensures |indents| >= old(|indents|)
      ensures r.Ok? ==> Wrote(level, old(target.text), old(indents[..level]), Render(isName, t, name).value)
      decreases t, 1
    {
      ghost var text0, states0 := target.text, indents[..level];
      RenderCompound(isName, t, name);
      var pre := WriteOpening(level, KW_COMPOUND, name, OPEN_BRACE);
      if pre.Err? {
        return Err(IllegalArgument);
      }
      ghost var head := Header(isName, KW_COMPOUND, name).value + [OPEN_BRACE];
      var block := WriteEntryBlock(level, t);
      if block.Err? {
        return Err(IllegalArgument);
      }
      ghost var nested := Nested(Block(CompoundPieces(isName, t, |t.entries|).value));
      PassThen(states0, text0, head, nested);
      Put(level, [CLOSE_BRACE]);
      PassThen(states0, text0, head + nested, [CLOSE_BRACE]);
      return Ok(());
    }

    /**
     * The part of `writeCompoundTag` the next level writes: a newline if
     * there are entries, then the entries. Seen from this level it is the
     * block of entries, indented.
     */
    method WriteEntryBlock(level: nat, t: Tag) returns (r: Result<()>)
      requires t.CompoundTag? && level <= |indents|
      modifies this, target
      ensures r.Ok? <==> CompoundPieces(isName, t, |t.entries|).Ok?
      ensures |indents| > level && |indents| >= old(|indents|)
      ensures r.Ok? ==> Wrote(level, old(target.text), old(indents[..level]), Nested(Block(CompoundPieces(isName, t, |t.entries|).value)))
      decreases t, 0, 3
    {
      ghost var text0 := target.text;
      ghost var states1, opening := OpenBlock(level, |t.entries| > 0);
      r := WriteEntries(level + 1, t);
      if r.Err? {
        return;
      }
      ghost var ps := CompoundPieces(isName, t, |t.entries|).value;
      assert Block(ps) == opening + LinesOf(ps, |t.entries|);
      PassNestedBlock(states1, text0, opening, LinesOf(ps, |t.entries|));
      assert indents[..level] == indents[..level + 1][..level];
    }

    /**
     * The loop of `writeCompoundTag`, run by the next level: each entry
     * followed by a comma unless it is the last, and a newline.
     */
    method WriteEntries(level: nat, t: Tag) returns (r: Result<()>)
      requires t.CompoundTag? && level <= |indents|
      modifies this, target
      ensures r.Ok? <==> CompoundPieces(isName, t, |t.entries|).Ok?
      ensures |indents| >= old(|indents|)
      ensures r.Ok? ==> Wrote(level, old(target.text), old(indents[..level]), LinesOf(CompoundPieces(isName, t, |t.entries|).value, |t.entries|))
      decreases t, 0, 2
    {
      var n := |t.entries|;
      ghost var text1, states1 := target.text, indents[..level];
      ghost var body: JString := [];
      PassEmpty(states1);
      var i := 0;
      while i < n
        invariant 0 <= i <= n
        invariant |indents| >= level && |indents| >= old(|indents|)
        invariant CompoundPieces(isName, t, i).Ok?
        invariant body == LinesOf(CompoundPieces(isName, t, i).value, n)
        invariant Wrote(level, text1, states1, body)
      {
        var line;
        line, body := WriteEntryStep(level, t, i, text1, states1, body);
        if line.Err? {
          return Err(IllegalArgument);
        }
        i := i + 1;
      }
      return Ok(());
    }

    /**
     * One turn of that loop: entry `i`'s line after the lines of the
     * entrys before it; if it throws, the whole compound does.
     */
    method WriteEntryStep(level: nat, t: Tag, i: nat, ghost text1: JString, ghost states1: seq<bool>, ghost body: JString)
      returns (r: Result<()>, ghost body': JString)
      requires t.CompoundTag? && i < |t.entries|
      requires CompoundPieces(isName, t, i).Ok?
      requires body == LinesOf(CompoundPieces(isName, t, i).value, |t.entries|)
      requires Wrote(level, text1, states1, body)
      modifies this, target
      ensures |indents| >= old(|indents|)
      ensures r.Err? ==> CompoundPieces(isName, t, |t.entries|).Err?
      ensures r.Ok? ==> CompoundPieces(isName, t, i + 1).Ok?
      ensures r.Ok? ==> body' == LinesOf(CompoundPieces(isName, t, i + 1).value, |t.entries|)
      ensures r.Ok? ==> Wrote(level, text1, states1, body')
      decreases t, 0, 1
    {
      ghost var ps := CompoundPieces(isName, t, i).value;
      var n := |t.entries|;
      r := WriteEntryLine(level, t, i, i + 1 == n);
      if r.Err? {
        CompoundPiecesPrefix(isName, t, i + 1, n);
        return r, body;
      }
      ghost var line := Entry(EntryPiece(isName, t, i).value, i + 1 == n);
      CompoundPiecesStep(isName, t, i);
      PassThen(states1, text1, body, line);
      LinesOfSnoc(ps, EntryPiece(isName, t, i).value, n);
      body' := body + line;
    }

    /**
     * `writeListLikeTag`: the header and `[`, the elements through the next
     * level, and `]`.
     */
    method WriteListLikeTag(level: nat, t: Tag, name: Option<JString>) returns (r: Result<()>)
      requires IsListLike(t) && level <= |indents|
      modifies this, target
      ensures r.Ok? <==> Render(isName, t, name).Ok?
      ensures r.Err? ==> r.error == IllegalArgument
      ensures |indents| >= old(|indents|)
      ensures r.Ok? ==> Wrote(level, old(target.text), old(indents[..level]), Render(isName, t, name).value)
      decreases t, 1
    {
      ghost var text0, states0 := target.text, indents[..level];
      RenderListLike(isName, t, name);
      var pre := WriteOpening(level, Keyword(t), name, OPEN_BRACKET);
      if pre.Err? {
        return Err(IllegalArgument);
      }
      ghost var head := Header(isName, Keyword(t), name).value + [OPEN_BRACKET];
      var block := WriteItemBlock(level, t);
      if block.Err? {
        return Err(IllegalArgument);
      }
      ghost var nested := Nested(Block(ListLikePieces(isName, t, ItemCount(t)).value));
      PassThen(states0, text0, head, nested);
      Put(level, [CLOSE_BRACKET]);
      PassThen(states0, text0, head + nested, [CLOSE_BRACKET]);
      return Ok(());
    }

    /**
     * The part of `writeListLikeTag` the next level writes: a newline if
     * there are elements, then the elements. Seen from this level it is the
     * block of elements, indented.
     */
    method WriteItemBlock(level: nat, t: Tag) returns (r: Result<()>)
      requires IsListLike(t) && level <= |indents|
      modifies this, target
      ensures r.Ok? <==> ListLikePieces(isName, t, ItemCount(t)).Ok?
      ensures |indents| > level && |indents| >= old(|indents|)
      ensures r.Ok? ==> Wrote(level, old(target.text), old(indents[..level]), Nested(Block(ListLikePieces(isName, t, ItemCount(t)).value)))
      decreases t, 0, 3
    {
      ghost var text0 := target.text;
      ghost var states1, opening := OpenBlock(level, ItemCount(t) > 0);
      r := WriteItems(level + 1, t);
      if r.Err? {
        return;
      }
      ghost var ps := ListLikePieces(isName, t, ItemCount(t)).value;
      assert Block(ps) == opening + LinesOf(ps, ItemCount(t));
      PassNestedBlock(states1, text0, opening, LinesOf(ps, ItemCount(t)));
      assert indents[..level] == indents[..level + 1][..level];
    }

    /**
     * The loop of `writeListLikeTag`, run by the next level: each element
     * followed by a comma unless it is the last, and a newline.
     */
    method WriteItems(level: nat, t: Tag) returns (r: Result<()>)
      requires IsListLike(t) && level <= |indents|
      modifies this, target
      ensures r.Ok? <==> ListLikePieces(isName, t, ItemCount(t)).Ok?
      ensures |indents| >= old(|indents|)
      ensures r.Ok? ==> Wrote(level, old(target.text), old(indents[..level]), LinesOf(ListLikePieces(isName, t, ItemCount(t)).value, ItemCount(t)))
      decreases t, 0, 2
    {
      var n := ItemCount(t);
      ghost var text1, states1 := target.text, indents[..level];
      ghost var body: JString := [];
      PassEmpty(states1);
      var i := 0;
      while i < n
        invariant 0 <= i <= n
        invariant |indents| >= level && |indents| >= old(|indents|)
        invariant ListLikePieces(isName, t, i).Ok?
        invariant body == LinesOf(ListLikePieces(isName, t, i).value, n)
        invariant Wrote(level, text1, states1, body)
      {
        var line;
        line, body := WriteItemStep(level, t, i, text1, states1, body);
        if line.Err? {
          return Err(IllegalArgument);
        }
        i := i + 1;
      }
      return Ok(());
    }

    /**
     * One turn of that loop: element `i`'s line after the lines of the
     * elements before it; if it throws, the whole list-like tag does.
     */
    method WriteItemStep(level: nat, t: Tag, i: nat, ghost text1: JString, ghost states1: seq<bool>, ghost body: JString)
      returns (r: Result<()>, ghost body': JString)
      requires IsListLike(t) && i < ItemCount(t)
      requires ListLikePieces(isName, t, i).Ok?
      requires body == LinesOf(ListLikePieces(isName, t, i).value, ItemCount(t))
      requires Wrote(level, text1, states1, body)
      modifies this, target
      ensures |indents| >= old(|indents|)
      ensures r.Err? ==> ListLikePieces(isName, t, ItemCount(t)).Err?
      ensures r.Ok? ==> ListLikePieces(isName, t, i + 1).Ok?
      ensures r.Ok? ==> body' == LinesOf(ListLikePieces(isName, t, i + 1).value, ItemCount(t))
      ensures r.Ok? ==> Wrote(level, text1, states1, body')
      decreases t, 0, 1
    {
      ghost var ps := ListLikePieces(isName, t, i).value;
      var n := ItemCount(t);
      r := WriteItemLine(level, t, i, i + 1 == n);
      if r.Err? {
        ListLikePiecesPrefix(isName, t, i + 1, n);
        return r, body;
      }
      ghost var line := Entry(ItemPiece(isName, t, i).value, i + 1 == n);
      ListLikePiecesStep(isName, t, i);
      PassThen(states1, text1, body, line);
      LinesOfSnoc(ps, ItemPiece(isName, t, i).value, n);
      body' := body + line;
    }

    /** After a child: a comma unless it is the last child, then a newline. */
    method WriteLineEnd(level: nat, isLast: bool)
      requires level <= |indents|
      modifies this, target
      ensures |indents| == old(|indents|)
      ensures Wrote(level, old(target.text), old(indents[..level]), (if isLast then [] else [COMMA]) + [NL])
    {
      ghost var text0, states0 := target.text, indents[..level];
      PassEmpty(states0);
      ghost var written: JString := [];
      if !isLast {
        Put(level, [COMMA]);
        written := [COMMA];
      }
      Put(level, [NL]);
      PassThen(states0, text0, written, [NL]);
    }

    /** One line of a compound, written by the next level: `writeAnyTag` of the entry's tag under its key, then the line's end. */
    method WriteEntryLine(level: nat, t: Tag, j: nat, isLast: bool) returns (r: Result<()>)
      requires t.CompoundTag? && j < |t.entries| && level <= |indents|
      modifies this, target
      ensures r.Ok? <==> EntryPiece(isName, t, j).Ok?
      ensures |indents| >= old(|indents|)
      ensures r.Ok? ==> Wrote(level, old(target.text), old(indents[..level]), Entry(EntryPiece(isName, t, j).value, isLast))
      decreases t, 0, 0
    {
      ghost var text0, states0 := target.text, indents[..level];
      r := WriteAnyTag(level, t.entries[j].1, Some(t.entries[j].0));
      if r.Err? {
        return;
      }
      ghost var p := EntryPiece(isName, t, j).value;
      WriteLineEnd(level, isLast);
      PassThen(states0, text0, p, (if isLast then [] else [COMMA]) + [NL]);
      assert Entry(p, isLast) == p + ((if isLast then [] else [COMMA]) + [NL]);
    }

    /** One line of a list-like tag, written by the next level: the element, then the line's end. */
    method WriteItemLine(level: nat, t: Tag, j: nat, isLast: bool) returns (r: Result<()>)
      requires IsListLike(t) && j < ItemCount(t) && level <= |indents|
      modifies this, target
      ensures r.Ok? <==> ItemPiece(isName, t, j).Ok?
      ensures |indents| >= old(|indents|)
      ensures r.Ok? ==> Wrote(level, old(target.text), old(indents[..level]), Entry(ItemPiece(isName, t, j).value, isLast))
      decreases t, 0, 0, 1
    {
      ghost var text0, states0 := target.text, indents[..level];
      r := WriteItem(level, t, j);
      if r.Err? {
        return;
      }
      ghost var p := ItemPiece(isName, t, j).value;
      WriteLineEnd(level, isLast);
      PassThen(states0, text0, p, (if isLast then [] else [COMMA]) + [NL]);
      assert Entry(p, isLast) == p + ((if isLast then [] else [COMMA]) + [NL]);
    }

    /**
     * One element of a list-like tag: a list's element is a tag and goes
     * through `writeAnyTag` without a name; an array's element is a number
     * and is appended as its decimal text.
     */
    method WriteItem(level: nat, t: Tag, j: nat) returns (r: Result<()>)
      requires IsListLike(t) && j < ItemCount(t) && level <= |indents|
      modifies this, target
      ensures r.Ok? <==> ItemPiece(isName, t, j).Ok?
      ensures |indents| >= old(|indents|)
      ensures r.Ok? ==> Wrote(level, old(target.text), old(indents[..level]), ItemPiece(isName, t, j).value)
      decreases t, 0, 0, 0
    {
      if t.ListTag? {
        r := WriteAnyTag(level, t.items[j], None);
      } else if t.ByteArrayTag? {
        Put(level, DecimalString(t.bytes[j]));
        r := Ok(());
      } else {
        Put(level, DecimalString(t.ints[j]));
        r := Ok(());
      }
    }
  }
}
