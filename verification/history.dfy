/** The undo/redo history of the designer: a list of element-array
    snapshots and a cursor into it, capped at 50 snapshots. `Commit` is the
    code as written; `CommitFixed` is the evidently intended variant whose
    cursor stays on the newest snapshot when the cap is hit. */
module History {
  import opened Types
  import Designer

  type Snapshot = seq<DesignElement>

  /** The number of snapshots the history keeps. */
  const Cap: nat := 50

  datatype History = History(snapshots: seq<Snapshot>, cursor: nat)

  /** What a commit receives: a new array, or a function of the current one. */
  datatype Edit = Replace(elements: Snapshot) | Updater(f: Snapshot -> Snapshot)

  /** The states the hook can reach: at least one and at most `Cap`
      snapshots, and the cursor inside the list except in the one state the
      overflow produces, where it sits just past a full list. */
  predicate Reachable(h: History) {
    && 1 <= |h.snapshots| <= Cap
    && (h.cursor < |h.snapshots| || h.cursor == |h.snapshots| == Cap)
  }

  /** The hook's initial state. */
  function Init(initial: Snapshot): (h: History)
    ensures |h.snapshots| == 1 && h.snapshots[0] == initial && h.cursor == 0
    ensures Reachable(h) && Current(h) == initial
  {
    History([initial], 0)
  }

  /** `history[currentIndex]?.elements || []`. */
  function Current(h: History): (r: Snapshot)
    ensures h.cursor < |h.snapshots| ==> r == h.snapshots[h.cursor]
    ensures h.cursor >= |h.snapshots| ==> r == []
  {
    if h.cursor < |h.snapshots| then h.snapshots[h.cursor] else []
  }

  /** The array a commit records. */
  function Resolve(h: History, edit: Edit): (r: Snapshot)
    ensures edit.Replace? ==> r == edit.elements
    ensures edit.Updater? ==> r == edit.f(Current(h))
  {
    match edit
    case Replace(elements) => elements
    case Updater(f) => f(Current(h))
  }

  /** How many snapshots `prev.slice(0, currentIndex + 1)` keeps: the end
      index is clamped to the length. */
  function Kept(h: History): (k: nat)
    ensures k <= |h.snapshots| && k <= h.cursor + 1
    ensures k == |h.snapshots| || k == h.cursor + 1
  {
    if h.cursor + 1 <= |h.snapshots| then h.cursor + 1 else |h.snapshots|
  }

  /** The snapshot list a commit produces: the kept prefix and the new
      snapshot, with the oldest one shifted out when that exceeds the cap. */
  function CommitSnapshots(h: History, edit: Edit): (r: seq<Snapshot>)
    ensures |r| >= 1 && r[|r| - 1] == Resolve(h, edit)
    ensures Kept(h) + 1 <= Cap ==> |r| == Kept(h) + 1 && r[..Kept(h)] == h.snapshots[..Kept(h)]
    ensures Kept(h) + 1 > Cap ==> |r| == Kept(h) && r[..Kept(h) - 1] == h.snapshots[1..Kept(h)]
  {
    var appended := h.snapshots[..Kept(h)] + [Resolve(h, edit)];
    if |appended| > Cap then appended[1..] else appended
  }

  /** `setElements` as written: the cursor becomes `min(cursor + 1, 50)`
      whatever happened to the list. */
  function Commit(h: History, edit: Edit): (r: History)
    ensures r.snapshots == CommitSnapshots(h, edit)
    ensures r.cursor == if h.cursor + 1 < Cap then h.cursor + 1 else Cap
  {
    History(CommitSnapshots(h, edit), if h.cursor + 1 < Cap then h.cursor + 1 else Cap)
  }

  /** `setElements` as evidently intended: the cursor lands on the snapshot
      just appended, also when the oldest one was evicted. */
  function CommitFixed(h: History, edit: Edit): (r: History)
    requires Reachable(h)
    ensures Reachable(r) && r.cursor == |r.snapshots| - 1
    ensures Current(r) == Resolve(h, edit)
    ensures r.snapshots == CommitSnapshots(h, edit)
  {
    var s := CommitSnapshots(h, edit);
    History(s, |s| - 1)
  }

  predicate CanUndo(h: History) {
    h.cursor > 0
  }

  predicate CanRedo(h: History) {
    h.cursor + 1 < |h.snapshots|
  }

  /** `undo`: one step back when possible; the snapshots never change. */
  function Undo(h: History): (r: History)
    ensures r.snapshots == h.snapshots
    ensures CanUndo(h) ==> r.cursor + 1 == h.cursor
    ensures !CanUndo(h) ==> r == h
  {
    if h.cursor > 0 then h.(cursor := h.cursor - 1) else h
  }

  /** `redo`: one step forward when possible; the snapshots never change. */
  function Redo(h: History): (r: History)
    ensures r.snapshots == h.snapshots
    ensures CanRedo(h) ==> r.cursor == h.cursor + 1 && r.cursor < |r.snapshots|
    ensures !CanRedo(h) ==> r == h
  {
    if h.cursor + 1 < |h.snapshots| then h.(cursor := h.cursor + 1) else h
  }

  /** Every operation keeps the history in its reachable states. */
  lemma ReachableIsInvariant(h: History, edit: Edit)
    requires Reachable(h)
    ensures Reachable(Commit(h, edit))
    ensures Reachable(Undo(h)) && Reachable(Redo(h))
  {
  }

  /** Below the cap, commit keeps the snapshots up to the cursor, drops the
      redo branch, appends one snapshot and points the cursor at it. */
  lemma CommitBelowCap(h: History, edit: Edit)
    requires h.cursor < |h.snapshots| < Cap
    ensures var r := Commit(h, edit);
            && |r.snapshots| == h.cursor + 2
            && r.snapshots[..h.cursor + 1] == h.snapshots[..h.cursor + 1]
            && r.cursor == h.cursor + 1
            && Current(r) == Resolve(h, edit)
  {
  }

  /** At the cap only the oldest snapshot is dropped, and the cursor ends up
      one past the end, so the displayed elements fall back to `[]`. */
  lemma CommitAtCapOverflows(h: History, edit: Edit)
    requires Reachable(h) && h.cursor + 1 >= Cap
    ensures var r := Commit(h, edit);
            && |r.snapshots| == Cap
            && r.snapshots[..Cap - 1] == h.snapshots[1..]
            && r.snapshots[Cap - 1] == Resolve(h, edit)
            && r.cursor == |r.snapshots|
            && Current(r) == []
  {
    assert Kept(h) == Cap;
  }

  /** A concrete case: fifty empty snapshots with the cursor on the last,
      then a commit of the two initial text elements. The commit is not
      shown; `CommitFixed` shows it. */
  lemma CommitAtCapLosesCurrent()
    ensures var h := History(seq(Cap, i => []), Cap - 1);
            var edit := Replace([Designer.NewText("1")]);
            && Reachable(h)
            && Current(Commit(h, edit)) == []
            && Current(CommitFixed(h, edit)) == [Designer.NewText("1")]
  {
    var h := History(seq(Cap, i => []), Cap - 1);
    CommitAtCapOverflows(h, Replace([Designer.NewText("1")]));
  }

  /** Undo right after a commit restores the previous display, as long as
      the commit did not hit the cap. */
  lemma UndoAfterCommit(h: History, edit: Edit)
    requires h.cursor < |h.snapshots| && h.cursor + 1 < Cap
    ensures Current(Undo(Commit(h, edit))) == Current(h)
  {
  }

  /** With the corrected commit, undo restores the previous display in every
      reachable state with the cursor on a snapshot, the cap included. */
  lemma UndoAfterCommitFixed(h: History, edit: Edit)
    requires Reachable(h) && h.cursor < |h.snapshots|
    ensures Current(Undo(CommitFixed(h, edit))) == Current(h)
  {
    var r := CommitFixed(h, edit);
    if Kept(h) + 1 > Cap {
      assert r.snapshots[..Kept(h) - 1][h.cursor - 1] == h.snapshots[1..Kept(h)][h.cursor - 1];
    } else {
      assert r.snapshots[..Kept(h)][h.cursor] == h.snapshots[..Kept(h)][h.cursor];
    }
  }

  /** After any commit there is nothing to redo. */
  lemma CommitClearsRedo(h: History, edit: Edit)
    requires |h.snapshots| <= Cap
    ensures !CanRedo(Commit(h, edit))
  {
  }

  /** Redo undoes an undo while the cursor is on a snapshot. */
  lemma RedoAfterUndo(h: History)
    requires CanUndo(h) && h.cursor < |h.snapshots|
    ensures Redo(Undo(h)) == h
  {
  }

  /** In the overflow state a redo after an undo does not come back. */
  lemma RedoAfterUndoPastEnd(h: History)
    requires Reachable(h) && h.cursor == |h.snapshots|
    ensures Redo(Undo(h)) != h && Current(Redo(Undo(h))) == h.snapshots[Cap - 1]
  {
  }

  /** A keyboard event as the handler sees it. */
  datatype KeyEvent = KeyEvent(ctrlKey: bool, metaKey: bool, shiftKey: bool, key: string)

  /** `handleKeyDown`: the new history and whether the default action was
      prevented. */
  function HandleKey(h: History, e: KeyEvent): (r: (History, bool))
    ensures var modifier := e.ctrlKey || e.metaKey;
            && (modifier && e.key == "z" && !e.shiftKey ==> r.0 == Undo(h))
            && (modifier && e.key == "z" && e.shiftKey ==> r.0 == Redo(h))
            && (modifier && e.key == "y" ==> r.0 == Redo(h))
            && (r.1 <==> modifier && (e.key == "z" || e.key == "y"))
            && (!r.1 ==> r.0 == h)
  {
    var modifier := e.ctrlKey || e.metaKey;
    var (h1, p1) := if modifier && e.key == "z" then (if e.shiftKey then Redo(h) else Undo(h), true) else (h, false);
    if modifier && e.key == "y" then (Redo(h1), true) else (h1, p1)
  }
}
