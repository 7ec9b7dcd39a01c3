/** The history file: one line for each entry. */
module LineHistoryFile {
  import opened Bytes
  import opened LineHistory

  const CR: byte := 13
  const LF: byte := 10

  type Entry = seq<byte>

  /** A string in memory ends at its first zero byte. */
  predicate IsString(e: Entry) { 0 !in e }

  predicate AllStrings(h: seq<Entry>) { forall i :: 0 <= i < |h| ==> IsString(h[i]) }

  // ---------- saving ----------

  /** One byte for another throughout. */
  function Swapped(e: Entry, from: byte, to: byte): (r: Entry)
    ensures |r| == |e| && forall i :: 0 <= i < |e| ==> r[i] == if e[i] == from then to else e[i]
  {
    seq(|e|, i requires 0 <= i < |e| => if e[i] == from then to else e[i])
  }

  /** The file of a history; newlines inside entries become carriage returns. */
  function Saved(h: seq<Entry>): seq<byte> {
    if h == [] then [] else Saved(h[..|h| - 1]) + (Swapped(h[|h| - 1], LF, CR) + [LF])
  }

  method Save(h: seq<Entry>) returns (file: seq<byte>)
    requires AllStrings(h)
    ensures file == Saved(h)
  {
    file := [];
    for j := 0 to |h|
      invariant file == Saved(h[..j])
    {
      assert h[..j + 1][..j] == h[..j];
      file := SaveEntry(h[j], file);
    }
    assert h[..|h|] == h;
  }

  method SaveEntry(e: Entry, file: seq<byte>) returns (r: seq<byte>)
    ensures r == file + (Swapped(e, LF, CR) + [LF])
  {
    r := file;
    ghost var s := Swapped(e, LF, CR);
    for i := 0 to |e|
      invariant r == file + s[..i]
    {
      assert s[..i + 1] == s[..i] + [s[i]];
      r := r + [if e[i] == LF then CR else e[i]];
    }
    assert s[..|e|] == s;
    r := r + [LF];
  }

  // ---------- reading lines ----------

  /** The place of the first `c` from `i` on. */
  function Find(s: seq<byte>, i: nat, c: byte): (k: nat)
    requires i <= |s|
    ensures i <= k <= |s| && (k < |s| ==> s[k] == c) && forall j :: i <= j < k ==> s[j] != c
    decreases |s| - i
  {
    if i == |s| || s[i] == c then i else Find(s, i + 1, c)
  }

  /** The line `s` stands at `at` and the next one at `next`; the last may lack its newline. */
  predicate IsLine(file: seq<byte>, at: nat, s: seq<byte>, next: nat) {
    at < |file| && var k := Find(file, at, LF); s == file[at..k] && next == if k < |file| then k + 1 else k
  }

  /** Reads up to the next newline; none is left at the end of the file. */
  method ReadLine(file: seq<byte>, at: nat) returns (line: seq<byte>, next: nat, more: bool)
    requires at <= |file|
    ensures more <==> at < |file|
    ensures more ==> IsLine(file, at, line, next)
  {
    line, next := [], at;
    ghost var k := Find(file, at, LF);
    while true
      invariant at <= next <= k && line == file[at..next]
      decreases |file| - next
    {
      if next == |file| || file[next] == LF {
        if next == |file| && |line| == 0 { return line, next, false; }
        return line, if next < |file| then next + 1 else next, true;
      }
      line := line + [file[next]];
      next := next + 1;
    }
  }

  // ---------- loading ----------

  /** What a line of the file becomes in memory. */
  function Restored(line: seq<byte>): (e: Entry)
    ensures IsString(e)
  {
    Swapped(line[..Find(line, 0, 0)], CR, LF)
  }

  /** The history after the lines from `at` on have been added. */
  function Loaded(h: seq<Entry>, max: nat, file: seq<byte>, at: nat): (r: seq<Entry>)
    requires |h| <= max && at <= |file|
    ensures |r| <= max
    decreases |file| - at
  {
    if at == |file| then h
    else
      var k := Find(file, at, LF);
      Loaded(Added(h, max, Restored(file[at..k])), max, file, if k < |file| then k + 1 else k)
  }

  /** What is loaded from `at` on leads to `goal`. */
  predicate Loads(h: seq<Entry>, max: nat, file: seq<byte>, at: nat, goal: seq<Entry>) {
    |h| <= max && at <= |file| && Loaded(h, max, file, at) == goal
  }

  lemma LoadStep(h: seq<Entry>, max: nat, file: seq<byte>, at: nat, line: seq<byte>, next: nat, goal: seq<Entry>)
    requires Loads(h, max, file, at, goal) && IsLine(file, at, line, next)
    ensures at < next && Loads(Added(h, max, Restored(line)), max, file, next, goal)
  {
  }

  method RestoreLine(line: seq<byte>) returns (e: Entry)
    ensures e == Restored(line)
  {
    e := [];
    ghost var n := Find(line, 0, 0);
    var j := 0;
    while j < |line| && line[j] != 0
      invariant j <= n && e == Swapped(line[..j], CR, LF)
    {
      e := e + [if line[j] == CR then LF else line[j]];
      j := j + 1;
      assert e == Swapped(line[..j], CR, LF);
    }
  }

  method Load(history: History<Entry>, file: seq<byte>)
    requires history.Valid()
    modifies history, history.slots
    ensures history.Valid() && history.maxLen == old(history.maxLen)
    ensures history.Entries() == Loaded(old(history.Entries()), history.maxLen, file, 0)
  {
    var at: nat, more := 0, true;
    ghost var goal := Loaded(history.Entries(), history.maxLen, file, 0);
    while more
      invariant at <= |file| && history.Valid() && history.maxLen == old(history.maxLen)
      invariant history.slots == old(history.slots) || fresh(history.slots)
      invariant Loads(history.Entries(), history.maxLen, file, at, goal)
      invariant !more ==> at == |file|
      decreases more, |file| - at
    {
      var line, next;
      line, next, more := ReadLine(file, at);
      if more {
        LoadStep(history.Entries(), history.maxLen, file, at, line, next, goal);
        var e := RestoreLine(line);
        var r := history.Add(e);
        at := next;
      }
    }
  }

  // ---------- saving and loading ----------

  /** The entries as they come back: carriage returns have become newlines. */
  function Back(h: seq<Entry>): (es: seq<Entry>)
    ensures |es| == |h| && forall i :: 0 <= i < |h| ==> es[i] == Swapped(h[i], CR, LF)
  {
    seq(|h|, i requires 0 <= i < |h| => Swapped(h[i], CR, LF))
  }

  lemma {:induction false} PrefixSaved(h: seq<Entry>, i: nat)
    requires i <= |h|
    ensures Saved(h[..i]) <= Saved(h)
    decreases |h| - i
  {
    if i == |h| {
      assert h[..i] == h;
    } else {
      var g := h[..|h| - 1];
      PrefixSaved(g, i);
      assert g[..i] == h[..i];
      assert Saved(h) == Saved(g) + (Swapped(h[|h| - 1], LF, CR) + [LF]);
    }
  }

  /** The bytes of entry `i` stand where those of the entries before end. */
  lemma EntryAt(h: seq<Entry>, i: nat, file: seq<byte>, at: nat, next: nat)
    requires i < |h| && file == Saved(h) && at == |Saved(h[..i])| && next == |Saved(h[..i + 1])|
    ensures IsLine(file, at, Swapped(h[i], LF, CR), next)
  {
    var b, s := Saved(h[..i]), Swapped(h[i], LF, CR);
    PrefixSaved(h, i + 1);
    assert h[..i + 1][..i] == h[..i];
    assert Saved(h[..i + 1]) == b + (s + [LF]);
    LineAt(file, b, s);
  }

  lemma LineAt(file: seq<byte>, b: seq<byte>, s: seq<byte>)
    requires b + (s + [LF]) <= file && LF !in s
    ensures file[|b|..|b| + |s|] == s && Find(file, |b|, LF) == |b| + |s|
  {
    var c := b + (s + [LF]);
    assert file[|b|..|b| + |s|] == c[|b|..|b| + |s|] == s;
    var k := Find(file, |b|, LF);
    assert file[|b| + |s|] == LF;
    assert forall j :: |b| <= j < |b| + |s| ==> file[j] == s[j - |b|] != LF;
  }

  lemma RestoredSaved(e: Entry)
    requires IsString(e)
    ensures Restored(Swapped(e, LF, CR)) == Swapped(e, CR, LF)
  {
    var s := Swapped(e, LF, CR);
    assert 0 !in s;
    assert s[..|s|] == s;
  }

  lemma LoadEntry(now: seq<Entry>, max: nat, file: seq<byte>, at: nat, next: nat, e: Entry, goal: seq<Entry>)
    requires Loads(now, max, file, at, goal) && IsString(e) && IsLine(file, at, Swapped(e, LF, CR), next)
    ensures Loads(Added(now, max, Swapped(e, CR, LF)), max, file, next, goal)
  {
    RestoredSaved(e);
    LoadStep(now, max, file, at, Swapped(e, LF, CR), next, goal);
  }

  /** Loading a saved file adds the entries again. */
  lemma {:induction false} LoadedSaved(h: seq<Entry>, i: nat, now: seq<Entry>, max: nat, file: seq<byte>, at: nat, es: seq<Entry>, goal: seq<Entry>)
    requires AllStrings(h) && i <= |h| && Loads(now, max, file, at, goal)
    requires file == Saved(h) && at == |Saved(h[..i])| && es == Back(h)[i..]
    ensures AddedAll(now, max, es) == goal
    decreases |h| - i
  {
    if i == |h| {
      assert h[..i] == h;
    } else {
      var next := |Saved(h[..i + 1])|;
      EntryAt(h, i, file, at, next);
      LoadEntry(now, max, file, at, next, h[i], goal);
      assert es[1..] == Back(h)[i + 1..] && es[0] == Swapped(h[i], CR, LF);
      LoadedSaved(h, i + 1, Added(now, max, es[0]), max, file, next, es[1..], goal);
    }
  }

  predicate NoCarriageReturns(h: seq<Entry>) { forall i :: 0 <= i < |h| ==> CR !in h[i] }

  lemma BackIs(h: seq<Entry>)
    ensures Back(h) == h <==> NoCarriageReturns(h)
  {
    forall i | 0 <= i < |h| ensures Back(h)[i] == h[i] <==> CR !in h[i] { SwapFixed(h[i]); }
    if Back(h) == h {
      forall i | 0 <= i < |h| ensures CR !in h[i] { assert Back(h)[i] == h[i]; }
    }
  }

  lemma SwapFixed(e: Entry)
    ensures Swapped(e, CR, LF) == e <==> CR !in e
  {
    if CR in e {
      var i :| 0 <= i < |e| && e[i] == CR;
      assert Swapped(e, CR, LF)[i] == LF;
    }
  }

  /** Saving and loading into an empty history gives it back exactly when it fits and has no carriage returns and no repeats. */
  lemma SaveThenLoad(h: seq<Entry>, max: nat)
    requires AllStrings(h)
    ensures Loaded([], max, Saved(h), 0) == h <==> |h| <= max && NoCarriageReturns(h) && NoRepeats(h)
  {
    assert h[..0] == [] && Back(h)[0..] == Back(h) && [] + Back(h) == Back(h);
    LoadedSaved(h, 0, [], max, Saved(h), 0, Back(h), Loaded([], max, Saved(h), 0));
    AddsKeepLatest([], max, Back(h));
    BackIs(h);
    FullRound(h, Back(h), max);
  }

  /** The latest of the entries are all of them just if none is lost. */
  lemma FullRound<T>(h: seq<T>, es: seq<T>, max: nat)
    requires |es| == |h|
    ensures LastOf(Collapsed(es), max) == h <==> |h| <= max && es == h && NoRepeats(h)
  {
    CollapsedIs(es);
  }
}
