/**
 * `NbtToHnbt`: the top-level document writer. A document is the root
 * compound written under the name `root`, whatever name the tag itself
 * carries, followed by one newline.
 */
module NbtToHnbt {
  import opened Lang
  import opened Tags
  import opened Indenting
  import opened Serialization

  /** The name the root compound is always written under. */
  const ROOT: JString := ['r' as int, 'o' as int, 'o' as int, 't' as int]

  /** The first line of every document, up to and including the opening brace. */
  const OPENING: JString := KW_COMPOUND + [SPACE] + ROOT + EQUALS + [OPEN_BRACE]

  /**
   * The text of the document for `root`, or the exception writing it throws.
   * It opens with `compound root = {` and closes with the root's brace and
   * exactly one newline after it; it fails exactly when the name `root` or
   * something inside the tree is refused.
   */
  function Document(isName: JString -> bool, root: Tag): (r: Result<JString>)
    requires root.CompoundTag?
    ensures r.Ok? <==> isName(ROOT) && Serializable(isName, root)
    ensures r.Err? ==> r.error == IllegalArgument
    ensures r.Ok? ==> |r.value| >= |OPENING| + 2
    ensures r.Ok? ==> r.value[..|OPENING|] == OPENING
    ensures r.Ok? ==> r.value[|r.value| - 2..] == [CLOSE_BRACE, NL]
  {
    RenderSucceeds(isName, root, Some(ROOT));
    RenderCompound(isName, root, Some(ROOT));
    var text :- Render(isName, root, Some(ROOT));
    DocumentFrame(Nested(Block(CompoundPieces(isName, root, |root.entries|).value)));
    Ok(text + [NL])
  }

  /** The fixed opening and closing around the root's nested block. */
  lemma DocumentFrame(body: JString)
    ensures var d := OPENING + body + [CLOSE_BRACE] + [NL];
      d[..|OPENING|] == OPENING && d[|d| - 2..] == [CLOSE_BRACE, NL]
  {
    var d := OPENING + body + [CLOSE_BRACE] + [NL];
    assert d == OPENING + (body + [CLOSE_BRACE, NL]);
  }

  /**
   * `parseNbtIntoHnbt(nbt, target)`: a fresh serializer over `target` writes
   * the root compound as `root` at the outermost level, then a newline goes
   * to `target` directly. When the writer throws, nothing more is appended.
   */
  method WriteDocument(isName: JString -> bool, root: Tag, target: CharSink) returns (r: Result<()>)
    requires root.CompoundTag?
    modifies target
    ensures r.Ok? <==> Document(isName, root).Ok?
    ensures r.Err? ==> r.error == IllegalArgument
    ensures r.Ok? ==> target.text == old(target.text) + Document(isName, root).value
  {
    var serializer := new HnbtSerializer(isName, target);
    r := serializer.WriteCompoundTag(0, root, Some(ROOT));
    if r.Err? {
      return;
    }
    target.Append([NL]);
  }

  /**
   * `parseNbtIntoHnbt(nbt)`: the document written into a fresh, empty
   * buffer, returned as a string.
   */
  method ParseNbtIntoHnbt(isName: JString -> bool, root: Tag) returns (r: Result<JString>)
    requires root.CompoundTag?
    ensures r == Document(isName, root)
  {
    var buffer := new CharSink();
    var written := WriteDocument(isName, root, buffer);
    if written.Err? {
      return Err(written.error);
    }
    var document := Document(isName, root);
    assert document.Ok? && buffer.text == [] + document.value;
    assert [] + document.value == document.value;
    return Ok(buffer.text);
  }

  /** A root compound with no entries is the one line `compound root = {}`. */
  lemma EmptyRootDocument(isName: JString -> bool)
    requires isName(ROOT)
    ensures Document(isName, CompoundTag([])) == Ok(OPENING + [CLOSE_BRACE, NL])
  {
    EmptyContainers(isName, Some(ROOT), EndKind);
    var header := Header(isName, KW_COMPOUND, Some(ROOT)).value;
    assert header + [OPEN_BRACE] == OPENING;
    assert header + [OPEN_BRACE, CLOSE_BRACE] + [NL] == OPENING + [CLOSE_BRACE, NL];
  }
}
