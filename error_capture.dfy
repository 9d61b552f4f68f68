/**
 * `CaptureErrorsListenener` (the repository's own spelling): an ANTLR error
 * listener that keeps every recognition exception reported to it, after
 * attaching to the exception a suppressed `RuntimeException` whose message
 * says where the error occurred.
 */
module ErrorCapture {
  import opened Lang
  import opened Decimal

  /**
   * An ANTLR `RecognitionException`, reduced to what the listener touches:
   * the messages of the exceptions added to it with `addSuppressed`.
   */
  class RecognitionException {
    var suppressed: seq<JString>

    constructor ()
      ensures suppressed == []
    {
      suppressed := [];
    }

    /** `addSuppressed(new RuntimeException(message))`. */
    method AddSuppressed(message: JString)
      modifies this
      ensures suppressed == old(suppressed) + [message]
    {
      suppressed := suppressed + [message];
    }
  }

  /**
   * The recognizer that reports an error: a lexer, with its mode names and
   * the index of its current mode, or any other recognizer (the parser).
   */
  datatype Recognizer = Lexer(modeNames: seq<JString>, mode: int) | Parser

  const INFO_PREFIX: JString := ['I' as int, 'n' as int, 'f' as int, 'o' as int, ' ' as int, 'f' as int, 'r' as int, 'o' as int, 'm' as int, ' ' as int, 's' as int, 'y' as int, 'n' as int, 't' as int, 'a' as int, 'x' as int, 'E' as int, 'r' as int, 'r' as int, 'o' as int, 'r' as int, ' ' as int, 'm' as int, 'e' as int, 't' as int, 'h' as int, 'o' as int, 'd' as int, ':' as int, ' ' as int]
  const LINE_LABEL: JString := ['o' as int, 'c' as int, 'c' as int, 'u' as int, 'r' as int, 'e' as int, 'd' as int, ' ' as int, 'a' as int, 't' as int, ' ' as int, 'l' as int, 'i' as int, 'n' as int, 'e' as int, ' ' as int]
  const POS_LABEL: JString := [' ' as int, 'a' as int, 't' as int, ' ' as int, 'p' as int, 'o' as int, 's' as int, ' ' as int]
  const MSG_OPEN: JString := [',' as int, ' ' as int, 'm' as int, 's' as int, 'g' as int, '=' as int, '\'' as int]
  const MSG_CLOSE: JString := ['\'' as int]
  const MODE_LABEL: JString := [',' as int, ' ' as int, 'm' as int, 'o' as int, 'd' as int, 'e' as int, '=' as int]

  /** `String.format("occured at line %s at pos %s, msg='%s'", line, charPositionInLine, msg)`. */
  function Location(line: Int32, pos: Int32, msg: JString): JString
  {
    LINE_LABEL + DecimalString(line) + POS_LABEL + DecimalString(pos) + MSG_OPEN + msg + MSG_CLOSE
  }

  /**
   * The message of the suppressed exception, or the exception building it
   * throws: a lexer whose mode index is outside its mode names fails the
   * array lookup.
   */
  function InfoMessage(recognizer: Recognizer, line: Int32, pos: Int32, msg: JString): (r: Result<JString>)
    ensures r.Ok? <==> recognizer.Parser? || 0 <= recognizer.mode < |recognizer.modeNames|
    ensures r.Err? ==> r.error == ArrayIndexOutOfBounds
    ensures r.Ok? ==> |r.value| >= |INFO_PREFIX| + |Location(line, pos, msg)|
    ensures r.Ok? ==> r.value[..|INFO_PREFIX|] == INFO_PREFIX
  {
    var message := Location(line, pos, msg);
    match recognizer
    case Parser => Ok(INFO_PREFIX + message)
    case Lexer(names, mode) =>
      if 0 <= mode < |names| then Ok(INFO_PREFIX + (message + MODE_LABEL + names[mode]))
      else Err(ArrayIndexOutOfBounds)
  }

  /**
   * Every message names the place of the error right after the prefix; a
   * parser's message ends there, and a lexer's goes on with exactly its
   * current mode's name.
   */
  lemma InfoMessageParts(recognizer: Recognizer, line: Int32, pos: Int32, msg: JString)
    requires InfoMessage(recognizer, line, pos, msg).Ok?
    ensures var v, k := InfoMessage(recognizer, line, pos, msg).value, |INFO_PREFIX| + |Location(line, pos, msg)|;
      && v[|INFO_PREFIX|..k] == Location(line, pos, msg)
      && (recognizer.Parser? ==> |v| == k)
      && (recognizer.Lexer? ==> v[k..] == MODE_LABEL + recognizer.modeNames[recognizer.mode])
  {
    var v := InfoMessage(recognizer, line, pos, msg).value;
    var loc := Location(line, pos, msg);
    var k := |INFO_PREFIX| + |loc|;
    if recognizer.Lexer? {
      var tail := MODE_LABEL + recognizer.modeNames[recognizer.mode];
      assert v == (INFO_PREFIX + loc) + tail;
      assert v[|INFO_PREFIX|..k] == loc && v[k..] == tail;
    } else {
      assert v == INFO_PREFIX + loc;
    }
  }

  /**
   * The line and the position stand in the message as their decimal
   * renderings, between the fixed labels, so each reads back as its value
   * (`Decimal.DecimalRoundTrip`).
   */
  lemma LocationFields(line: Int32, pos: Int32, msg: JString)
    ensures var loc, b := Location(line, pos, msg), |LINE_LABEL| + |DecimalString(line)|;
      var c := b + |POS_LABEL|;
      && c + |DecimalString(pos)| <= |loc|
      && loc[..|LINE_LABEL|] == LINE_LABEL
      && loc[|LINE_LABEL|..b] == DecimalString(line)
      && loc[b..c] == POS_LABEL
      && loc[c..c + |DecimalString(pos)|] == DecimalString(pos)
  {
    var l, p := DecimalString(line), DecimalString(pos);
    var loc := Location(line, pos, msg);
    assert loc == LINE_LABEL + l + POS_LABEL + p + (MSG_OPEN + msg + MSG_CLOSE);
  }

  class CaptureErrorsListenener {
    var errors: seq<RecognitionException>

    /** A new listener has captured nothing. */
    constructor ()
      ensures errors == []
    {
      errors := [];
    }

    /**
     * `syntaxError`: a report without an exception is ignored; otherwise the
     * exception gets the info message as a suppressed exception and is
     * appended to the captured list, unless building the message throws.
     * The offending symbol is not used.
     */
    method SyntaxError(recognizer: Recognizer, line: Int32, charPositionInLine: Int32, msg: JString,
                       e: RecognitionException?) returns (r: Result<()>)
      modifies this, e
      ensures e == null ==> r.Ok? && errors == old(errors)
      ensures e != null ==> (r.Ok? <==> InfoMessage(recognizer, line, charPositionInLine, msg).Ok?)
      ensures r.Err? ==> r.error == ArrayIndexOutOfBounds
      ensures e != null && r.Ok? ==> errors == old(errors) + [e]
      ensures e != null && r.Ok? ==>
        e.suppressed == old(e.suppressed) + [InfoMessage(recognizer, line, charPositionInLine, msg).value]
      ensures r.Err? ==> errors == old(errors) && e.suppressed == old(e.suppressed)
    {
      if e == null {
        return Ok(());
      }
      var message := InfoMessage(recognizer, line, charPositionInLine, msg);
      if message.Err? {
        return Err(message.error);
      }
      e.AddSuppressed(message.value);
      errors := errors + [e];
      r := Ok(());
    }

    /** `getErrors`: a copy of the captured list, which later reports and clears leave as it is. */
    method GetErrors() returns (r: seq<RecognitionException>)
      ensures r == errors
    {
      r := errors;
    }

    /**
     * A list taken with `getErrors` before a report is not changed by it,
     * while the listener itself goes on to hold the new exception.
     */
    method SnapshotThenReport(recognizer: Recognizer, line: Int32, charPositionInLine: Int32, msg: JString,
                              e: RecognitionException) returns (snapshot: seq<RecognitionException>, r: Result<()>)
      modifies this, e
      ensures snapshot == old(errors)
      ensures r.Ok? ==> errors == snapshot + [e] && errors != snapshot
    {
      snapshot := GetErrors();
      r := SyntaxError(recognizer, line, charPositionInLine, msg, e);
    }

    /** `clearErrors`: the listener holds nothing afterwards. */
    method ClearErrors()
      modifies this
      ensures errors == []
    {
      errors := [];
    }
  }
}
