/** Whole sessions of the line editor. */
module LineSession {
  import opened Bytes
  import opened Utf8
  import opened LinePaste
  import opened LineModel
  import opened LineEditor
  import opened LineRuns

  /** The editor does to its buffer what the command does to the line. */
  method Perform(e: Editor, c: Command)
    requires e.Valid() && CommandOk(c, e.line.limit)
    modifies e, e.buf, e.table, e.table.starts, e.table.ends
    ensures e.Valid() && (e.buf == old(e.buf) || fresh(e.buf))
    ensures e.line == Step(old(e.line), c)
  {
    match c
    case InsertText(bytes) => var ok := e.InsertNoRefresh(bytes);
    case PasteText(input) => var consumed, beep := e.EditPaste(input);
    case Recall(entry) =>
      assert entry[..|entry|] == entry;
      e.Recall(entry);
    case DeleteRight => e.Delete();
    case Backspace => e.Backspace();
    case DeletePrevWord => e.DeletePrevWord();
    case KillLine => e.KillLine();
    case KillToEnd => e.KillToEnd();
    case Transpose => var beep := e.Transpose();
    case MoveLeft => e.MoveLeft();
    case MoveRight => e.MoveRight();
    case MoveHome => e.MoveHome();
    case MoveEnd => e.MoveEnd();
  }

  predicate AllOk(cs: seq<Command>, limit: nat) { forall i :: 0 <= i < |cs| ==> CommandOk(cs[i], limit) }

  lemma {:induction false} RunSnoc(l: Line, cs: seq<Command>, c: Command)
    requires LineOk(l) && AllOk(cs, l.limit) && CommandOk(c, l.limit) && AllOk(cs + [c], l.limit)
    ensures Run(l, cs + [c]) == Step(Run(l, cs), c)
    decreases |cs|
  {
    if cs == [] {
      assert (cs + [c])[1..] == [];
    } else {
      assert (cs + [c])[1..] == cs[1..] + [c];
      StepKeepsLimit(l, cs[0]);
      RunSnoc(Step(l, cs[0]), cs[1..], c);
    }
  }

  /** A session leaves the line that its commands describe. */
  method PerformAll(e: Editor, cs: seq<Command>)
    requires e.Valid() && AllOk(cs, e.line.limit)
    modifies e, e.buf, e.table, e.table.starts, e.table.ends
    ensures e.Valid() && (e.buf == old(e.buf) || fresh(e.buf))
    ensures e.line == Run(old(e.line), cs)
  {
    ghost var l := e.line;
    for i := 0 to |cs|
      invariant e.Valid() && (e.buf == old(e.buf) || fresh(e.buf))
      invariant e.line == Run(l, cs[..i])
    {
      assert cs[..i + 1] == cs[..i] + [cs[i]];
      RunSnoc(l, cs[..i], cs[i]);
      Perform(e, cs[i]);
    }
    assert cs[..|cs|] == cs;
  }
}
