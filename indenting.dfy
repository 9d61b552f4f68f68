/**
 * `IndentAddingAppendable`: an `Appendable` that forwards every character to
 * its delegate and writes an indent string before each character that is
 * not a newline but follows one. Its whole state is one bit, whether the
 * last character forwarded was a newline.
 */
module Indenting {
  import opened Lang

  /**
   * What the appendable forwards to its delegate for `s`, starting with
   * `last` as its newline bit.
   */
  function Filter(indent: JString, last: bool, s: JString): JString
    decreases |s|
  {
    if s == [] then []
    else (if last && s[0] != NL then indent else []) + [s[0]] + Filter(indent, s[0] == NL, s[1..])
  }

  /** Nothing is dropped, and the last character forwarded is the last one appended. */
  lemma {:induction false} FilterForwardsLast(indent: JString, last: bool, s: JString)
    ensures |s| <= |Filter(indent, last, s)|
    ensures s != [] ==> Filter(indent, last, s)[|Filter(indent, last, s)| - 1] == s[|s| - 1]
    decreases |s|
  {
    if s != [] {
      FilterForwardsLast(indent, s[0] == NL, s[1..]);
    }
  }

  /** The newline bit after appending `s` from state `last`. */
  function After(last: bool, s: JString): bool
  {
    if s == [] then last else s[|s| - 1] == NL
  }

  /** The newline bit after `a + b` is the bit after `b`, starting from the bit after `a`. */
  lemma AfterConcat(last: bool, a: JString, b: JString)
    ensures After(last, a + b) == After(After(last, a), b)
  {
    if b != [] {
      assert (a + b)[|a + b| - 1] == b[|b| - 1];
    } else {
      assert a + b == a;
    }
  }

  /** Appending `a` and then `b` forwards what appending `a + b` at once does. */
  lemma {:induction false} FilterConcat(indent: JString, last: bool, a: JString, b: JString)
    ensures Filter(indent, last, a + b) == Filter(indent, last, a) + Filter(indent, After(last, a), b)
    decreases |a|
  {
    if a == [] {
      assert a + b == b;
    } else {
      var next := a[0] == NL;
      var x := (if last && a[0] != NL then indent else []) + [a[0]];
      var y, z := Filter(indent, next, a[1..]), Filter(indent, After(last, a), b);
      assert Filter(indent, last, a + b) == x + (y + z) by {
        assert (a + b)[0] == a[0];
        assert (a + b)[1..] == a[1..] + b;
        FilterConcat(indent, next, a[1..], b);
        AfterTail(last, a);
      }
      assert x + (y + z) == (x + y) + z;
    }
  }

  /** After the first character, the rest ends in the same newline bit as the whole. */
  lemma AfterTail(last: bool, a: JString)
    requires a != []
    ensures After(a[0] == NL, a[1..]) == After(last, a)
  {
    if a[1..] != [] {
      assert a[1..][|a[1..]| - 1] == a[|a| - 1];
    }
  }

  /** One character more: the piece it forwards and the bit it leaves. */
  lemma FilterExtend(indent: JString, last: bool, s: JString, c: JChar)
    ensures Filter(indent, last, s + [c]) == Filter(indent, last, s) + Filter(indent, After(last, s), [c])
    ensures After(last, s + [c]) == (c == NL)
  {
    FilterConcat(indent, last, s, [c]);
  }

  /**
   * The indent goes exactly before a character that is not a newline and
   * follows a newline (or starts the output in state `true`): once, and
   * never before a newline, so blank lines stay empty.
   */
  lemma FilterStep(indent: JString, last: bool, s: JString, c: JChar)
    ensures Filter(indent, last, s + [c]) ==
      Filter(indent, last, s) + (if After(last, s) && c != NL then indent else []) + [c]
  {
    FilterConcat(indent, last, s, [c]);
    assert [c][1..] == [];
    assert Filter(indent, After(last, s), [c]) == (if After(last, s) && c != NL then indent else []) + [c];
  }

  lemma FilterOne(indent: JString, last: bool, c: JChar)
    ensures Filter(indent, last, [c]) == (if last && c != NL then indent else []) + [c]
  {
    assert [c][1..] == [];
  }

  /** A fresh appendable never indents the first character written. */
  lemma FirstCharNotIndented(indent: JString, s: JString)
    requires s != []
    ensures Filter(indent, false, s)[0] == s[0]
  {
  }

  /**
   * Filtering text that begins with a newline forwards the same output
   * whatever the initial state, so a stale newline bit is harmless.
   */
  lemma LeadingNewlineForgetsState(indent: JString, s: JString)
    requires s != [] && s[0] == NL
    ensures Filter(indent, true, s) == Filter(indent, false, s)
  {
  }

  /**
   * Removes the indents a `Filter` in state `last` inserted; `None` when
   * an expected indent is missing.
   */
  function Unindent(indent: JString, last: bool, t: JString): Option<JString>
    decreases |t|
  {
    if t == [] then Some([])
    else if last && t[0] != NL then
      if |indent| < |t| && t[..|indent|] == indent then
        var c := t[|indent|];
        var rest :- Unindent(indent, c == NL, t[|indent| + 1..]);
        Some([c] + rest)
      else None
    else
      var rest :- Unindent(indent, t[0] == NL, t[1..]);
      Some([t[0]] + rest)
  }

  /** Every character is forwarded unchanged and in order: taking the indents out again gives back the input. */
  lemma {:induction false} UnindentFilter(indent: JString, last: bool, s: JString)
    requires forall i | 0 <= i < |indent| :: indent[i] != NL
    ensures Unindent(indent, last, Filter(indent, last, s)) == Some(s)
    decreases |s|
  {
    if s != [] {
      var t := Filter(indent, last, s);
      var tail := Filter(indent, s[0] == NL, s[1..]);
      UnindentFilter(indent, s[0] == NL, s[1..]);
      if last && s[0] != NL {
        assert t == indent + [s[0]] + tail;
        if indent != [] {
          assert t[0] == indent[0];
        }
        assert t[..|indent|] == indent;
        assert t[|indent|] == s[0];
        assert t[|indent| + 1..] == tail;
      } else {
        assert t == [s[0]] + tail;
        assert t[1..] == tail;
      }
      assert [s[0]] + s[1..] == s;
    }
  }

  class IndentAddingAppendable {
    const indentString: JString
    const delegate: CharSink
    var lastWasNewline: bool

    /** A new appendable has not yet seen a newline. */
    constructor (indentString: JString, delegate: CharSink)
      ensures this.indentString == indentString && this.delegate == delegate
      ensures !lastWasNewline
    {
      this.indentString := indentString;
      this.delegate := delegate;
      lastWasNewline := false;
    }

    /** `append(char)`: the indent if the character follows a newline and is not one, then the character. */
    method AppendChar(c: JChar)
      modifies this, delegate
      ensures delegate.text == old(delegate.text) + Filter(indentString, old(lastWasNewline), [c])
      ensures lastWasNewline == (c == NL)
    {
      if lastWasNewline && c != NL {
        delegate.Append(indentString);
      }
      delegate.Append([c]);
      lastWasNewline := c == NL;
      assert [c][1..] == [];
    }

    /**
     * `append(csq, start, end)`: appends the characters of `[start, end)`
     * one at a time; `charAt` throws at the first index outside `csq`,
     * after the characters before it have gone out.
     */
    method AppendRange(csq: JString, start: int, end: int) returns (r: Result<()>)
      modifies this, delegate
      ensures r.Ok? <==> start >= end || (0 <= start && end <= |csq|)
      ensures r.Err? ==> r.error == StringIndexOutOfBounds
      ensures delegate.text == old(delegate.text) + Filter(indentString, old(lastWasNewline), Written(csq, start, end))
      ensures lastWasNewline == After(old(lastWasNewline), Written(csq, start, end))
    {
      ghost var text0, last0 := delegate.text, lastWasNewline;
      var i := start;
      ghost var sent: JString := [];
      while i < end
        invariant i == start || 0 <= start <= i <= end
        invariant i <= |csq| || i == start
        invariant i == start ==> sent == []
        invariant i > start ==> sent == csq[start..i]
        invariant delegate.text == text0 + Filter(indentString, last0, sent)
        invariant lastWasNewline == After(last0, sent)
      {
        if i < 0 || i >= |csq| {
          assert Written(csq, start, end) == sent;
          return Err(StringIndexOutOfBounds);
        }
        var c := csq[i];
        assert sent == csq[start..i];
        assert csq[start..i + 1] == sent + [c];
        AppendNext(text0, last0, sent, c);
        sent := sent + [c];
        i := i + 1;
      }
      assert Written(csq, start, end) == sent;
      return Ok(());
    }

    /** One character of `append(csq, start, end)`, continuing the characters `sent` before it. */
    method AppendNext(ghost text0: JString, ghost last0: bool, ghost sent: JString, c: JChar)
      requires delegate.text == text0 + Filter(indentString, last0, sent)
      requires lastWasNewline == After(last0, sent)
      modifies this, delegate
      ensures delegate.text == text0 + Filter(indentString, last0, sent + [c])
      ensures lastWasNewline == After(last0, sent + [c])
    {
      FilterExtend(indentString, last0, sent, c);
      AppendChar(c);
    }

    /** `append(csq)`: the same as appending each of its characters in turn. */
    method Append(csq: JString)
      modifies this, delegate
      ensures delegate.text == old(delegate.text) + Filter(indentString, old(lastWasNewline), csq)
      ensures lastWasNewline == After(old(lastWasNewline), csq)
    {
      var _ := AppendRange(csq, 0, |csq|);
      assert csq[0..|csq|] == csq;
    }
  }

  /** `csq[start..i]`, or nothing when that is not a range of `csq`. */
  function Slice(csq: JString, start: int, i: int): JString
  {
    if 0 <= start <= i <= |csq| then csq[start..i] else []
  }

  /** The characters `append(csq, start, end)` forwards before it returns or throws. */
  function Written(csq: JString, start: int, end: int): (w: JString)
    ensures 0 <= start <= end <= |csq| ==> w == csq[start..end]
    ensures start >= end || start < 0 || start >= |csq| ==> w == []
  {
    if start >= end || start < 0 then []
    else if end <= |csq| then csq[start..end]
    else Slice(csq, start, |csq|)
  }
}
