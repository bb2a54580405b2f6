/** Undo and redo on a replica that nobody else edits: exact reversals of visibility. */
module UndoRedo {
  import opened Identifiers
  import opened Operations
  import opened FugueShape
  import opened FugueTrees
  import opened EngineState
  import opened Collection
  import opened OpSets
  import opened Replica
  import opened LocalEdits
  import opened Network

  // ------------------------------------------------------------------ which nodes are hidden

  function HiddenIn(ns: seq<Node>): set<Id> {
    set n | n in ns && n.deleted :: n.id
  }

  function Hidden(s: State): set<Id> {
    HiddenIn(Flat(s.tree))
  }

  /** A live node has no attribution. */
  ghost predicate Tidy(s: State) {
    forall n :: n in Flat(s.tree) && !n.deleted ==> n.deletedBy == None
  }

  lemma HiddenAt(s: State, id: Id)
    requires WF(s) && Some(id) in Keys(s.tree)
    ensures id in Hidden(s) <==> NodeAt(s.tree, id).deleted
  {
    DocNodeBack(s.tree, id);
    NodesUnique(s.tree);
  }

  /** A node after an operation, looked up by identifier. */
  lemma EffectNodeAt(s: State, op: Op, id: Id)
    requires WF(s) && Ready(s.tree, op) && op.id !in s.applied && Some(id) in Keys(s.tree)
    ensures IsDoc(Effect(s.tree, op)) && Some(id) in Keys(Effect(s.tree, op))
    ensures NodeAt(Effect(s.tree, op), id) == Reflagged(NodeAt(s.tree, id), op)
  {
    EffectDoc(s, op);
    DocFind(s.tree, Some(id));
    match op
    case Insert(_, _, _, _, _) => FindAttach(s.tree, NewNode(op), Some(id));
    case Delete(d, target) =>
      FindSetFlags(s.tree, Some(target), true, Some(MaxWins(NodeAt(s.tree, target).deletedBy, d)), Some(id));
    case Undelete(_, target) => FindSetFlags(s.tree, Some(target), false, None, Some(id));
  }

  /** What an operation with an effect does to the hidden nodes. */
  function Flip(h: set<Id>, op: Op): set<Id> {
    match op
    case Insert(_, _, _, _, _) => h
    case Delete(_, target) => h + {target}
    case Undelete(_, target) => h - {target}
  }

  lemma EffectHidden(s: State, op: Op, t: State)
    requires WF(s) && WF(t) && Ready(s.tree, op) && op.id !in s.applied && t.tree == Effect(s.tree, op)
    requires op.Undelete? ==> Revives(NodeAt(s.tree, op.target).deletedBy, op.id)
    ensures Hidden(t) == Flip(Hidden(s), op)
  {
    EffectDoc(s, op);
    DocKeys(s.tree);
    DocKeys(t.tree);
    forall id | Some(id) in Keys(s.tree) ensures id in Hidden(t) <==> id in Flip(Hidden(s), op) {
      HiddenAt(s, id);
      HiddenAt(t, id);
      EffectNodeAt(s, op, id);
    }
    if op.Insert? {
      HiddenAt(t, op.id);
      FindNew(s.tree, NewNode(op));
    }
  }

  // ------------------------------------------------------------------ stacks as histories

  /** Undoing an entry: what it does to the hidden nodes. */
  function Back(h: set<Id>, e: Entry): set<Id> {
    if e.op.Delete? then h - {e.Target()} else h + {e.Target()}
  }

  /** The top entry is undone by the current visibility, the next by the one this leaves, and so on. */
  ghost predicate Chain(st: seq<Entry>, h: set<Id>) {
    st != [] ==>
      var e := Last(st);
      && e.hadEffect && (e.op.Delete? <==> e.Target() in h)
      && Chain(st[..|st| - 1], Back(h, e))
  }

  /** Hidden nodes after reversing the top `k` entries. */
  function Peel(st: seq<Entry>, h: set<Id>, k: nat): set<Id>
    requires k <= |st|
  {
    if k == 0 then h else Peel(st[..|st| - 1], Back(h, Last(st)), k - 1)
  }

  /** An entry's node is there and, if hidden, attributed to this replica. */
  ghost predicate Mine(s: State, e: Entry)
    requires WF(s)
  {
    && Some(e.Target()) in Keys(s.tree)
    && (NodeAt(s.tree, e.Target()).deleted ==> Revives(NodeAt(s.tree, e.Target()).deletedBy, NextId(s)))
  }

  ghost predicate AllMine(s: State, st: seq<Entry>)
    requires WF(s)
  {
    forall e :: e in st ==> Mine(s, e)
  }

  /** `st` is a history of the visibility. */
  ghost predicate History(s: State, st: seq<Entry>)
    requires WF(s)
  {
    Chain(st, Hidden(s)) && AllMine(s, st)
  }

  /** Both stacks are histories of the visibility. */
  ghost predicate Healthy(s: State) {
    WF(s) && Tidy(s) && History(s, s.undoStack) && History(s, s.redoStack)
  }

  /** Only an entry's own node matters to a history. */
  lemma {:induction false} ChainElsewhere(st: seq<Entry>, h: set<Id>, x: Id)
    requires forall e :: e in st ==> e.Target() != x
    ensures Chain(st, h) <==> Chain(st, h + {x})
    ensures forall k: nat :: k <= |st| ==> Peel(st, h + {x}, k) == Peel(st, h, k) + {x}
  {
    if st != [] {
      var e, rest := Last(st), st[..|st| - 1];
      assert e in st;
      assert Back(h + {x}, e) == Back(h, e) + {x};
      ChainElsewhere(rest, Back(h, e), x);
    }
  }

  // ------------------------------------------------------------------ one operation

  /** Old entries stay this replica's when it deletes or revives one of its nodes. */
  lemma MineKept(s: State, op: Op, t: State, e: Entry)
    requires WF(s) && WF(t) && Ready(s.tree, op) && op.id == NextId(s) && t.tree == Effect(s.tree, op)
      && t.replica == s.replica
    requires Tidy(s) && (op.Delete? ==> !NodeAt(s.tree, op.target).deleted)
    requires Mine(s, e)
    ensures Mine(t, e)
  {
    EffectNodeAt(s, op, e.Target());
    DocNodeBack(s.tree, e.Target());
  }

  lemma TidyKept(s: State, op: Op, t: State)
    requires WF(s) && Tidy(s) && Ready(s.tree, op) && t.tree == Effect(s.tree, op)
    ensures Tidy(t)
  {
    forall m | m in Flat(t.tree) && !m.deleted ensures m.deletedBy == None {
      EffectNodes(s.tree, op, m);
    }
  }

  /** `t` is `s` after reversing `e`, stacks aside; `back` is what reverses that in turn. */
  ghost predicate Turned(s: State, e: Entry, t: State, back: Entry) {
    && WF(s) && WF(t) && Tidy(t) && Keys(t.tree) == Keys(s.tree)
    && Hidden(t) == Back(Hidden(s), e)
    && back.hadEffect && back.Target() == e.Target() && (back.op.Delete? <==> !e.op.Delete?) && Mine(t, back)
    && (forall o :: Mine(s, o) ==> Mine(t, o))
    && t.undoStack == s.undoStack && t.redoStack == s.redoStack
    && Origins(Flat(t.tree)) == Origins(Flat(s.tree))
  }

  lemma OriginsFlagged(ns: seq<Node>, k: Key, deleted: bool, who: Option<Id>)
    ensures Origins(FlagAll(ns, k, deleted, who)) == Origins(ns)
  {
  }

  /** Flag operations leave the order alone. */
  lemma EffectOrigins(s: State, op: Op)
    requires WF(s) && Ready(s.tree, op) && !op.Insert?
    ensures Origins(Flat(Effect(s.tree, op))) == Origins(Flat(s.tree))
  {
    if op.Delete? {
      var who := Some(MaxWins(NodeAt(s.tree, op.target).deletedBy, op.id));
      FlatSetFlags(s.tree, Some(op.target), true, who);
      OriginsFlagged(Flat(s.tree), Some(op.target), true, who);
    } else {
      FlatSetFlags(s.tree, Some(op.target), false, None);
      OriginsFlagged(Flat(s.tree), Some(op.target), false, None);
    }
  }

  lemma Turns(s: State, e: Entry)
    requires WF(s) && Tidy(s) && Mine(s, e) && e.hadEffect && (e.op.Delete? <==> e.Target() in Hidden(s))
    ensures
      var step := StepUndoRedo(s, e);
      step.outcome.Applied? && step.pushed.Some? && Turned(s, e, step.state, step.pushed.value)
  {
    var op := Reversal(e, NextId(s)).value;
    var t := Perform(Tick(s), op);
    HiddenAt(s, e.Target());
    EffectDoc(s, op);
    EffectHidden(s, op, t);
    EffectOrigins(s, op);
    TidyKept(s, op, t);
    HiddenAt(t, e.Target());
    EffectNodeAt(s, op, e.Target());
    DocNodeBack(s.tree, e.Target());
    forall o | Mine(s, o) ensures Mine(t, o) { MineKept(s, op, t, o); }
  }

  /** The stacks after `e` is popped and `back` pushed. */
  lemma TurnedHistories(s: State, e: Entry, t: State, back: Entry, popped: seq<Entry>, pushed: seq<Entry>)
    requires Turned(s, e, t, back) && History(s, popped) && History(s, pushed) && popped != [] && e == Last(popped)
    ensures History(t, popped[..|popped| - 1]) && History(t, pushed + [back]) && Back(Hidden(t), back) == Hidden(s)
  {
    LastIn(popped);
    PushedChain(pushed, Hidden(s), e, back);
  }

  lemma PushedChain(st: seq<Entry>, h: set<Id>, e: Entry, back: Entry)
    requires Chain(st, h) && back.hadEffect && back.Target() == e.Target() && (back.op.Delete? <==> !e.op.Delete?)
    requires e.op.Delete? <==> e.Target() in h
    ensures Back(Back(h, e), back) == h && Chain(st + [back], Back(h, e))
  {
    assert Back(Back(h, e), back) == h;
    assert (st + [back])[..|st|] == st;
  }

  lemma LastIn(st: seq<Entry>)
    requires st != []
    ensures Last(st) in st && forall e :: e in st[..|st| - 1] ==> e in st
  {
  }

  /** Histories do not depend on the stacks of the state. */
  lemma HistoryMoves(s: State, t: State, st: seq<Entry>)
    requires WF(s) && WF(t) && History(s, st) && t.tree == s.tree && t.replica == s.replica
    ensures History(t, st)
  {
    forall e | e in st ensures Mine(t, e) { assert Mine(s, e); }
  }

  /** One undo, or one redo with the stacks exchanged: `popped` loses its top, `pushed` gains its reversal. */
  ghost predicate Shifted(s: State, popped: seq<Entry>, pushed: seq<Entry>, t: State, popped': seq<Entry>,
    pushed': seq<Entry>) {
    && Healthy(t) && popped != [] && popped' == popped[..|popped| - 1]
    && pushed' != [] && pushed'[..|pushed'| - 1] == pushed
    && Hidden(t) == Back(Hidden(s), Last(popped)) && Back(Hidden(t), Last(pushed')) == Hidden(s)
    && Keys(t.tree) == Keys(s.tree) && Origins(Flat(t.tree)) == Origins(Flat(s.tree))
  }

  lemma UndoShifts(s: State)
    requires Healthy(s) && s.undoStack != []
    ensures Undo(s).1.Applied?
    ensures Shifted(s, s.undoStack, s.redoStack, Undo(s).0, Undo(s).0.undoStack, Undo(s).0.redoStack)
  {
    hide Chain, Tidy, Mine, AllMine, Unique, Placed;
    var e, p, u := Last(s.undoStack), PopUndo(s), Undo(s).0;
    HistoryMoves(s, p, s.undoStack);
    HistoryMoves(s, p, s.redoStack);
    TopMine(p, s.undoStack);
    TidyMoves(s, p);
    Turns(p, e);
    var t, back := StepUndoRedo(p, e).state, StepUndoRedo(p, e).pushed.value;
    TurnedHistories(p, e, t, back, s.undoStack, s.redoStack);
    HistoryMoves(t, u, s.undoStack[..|s.undoStack| - 1]);
    HistoryMoves(t, u, s.redoStack + [back]);
    TidyMoves(t, u);
    PushPop(s.redoStack, back);
  }

  lemma RedoShifts(s: State)
    requires Healthy(s) && s.redoStack != []
    ensures Redo(s).1.Applied?
    ensures Shifted(s, s.redoStack, s.undoStack, Redo(s).0, Redo(s).0.redoStack, Redo(s).0.undoStack)
  {
    hide Chain, Tidy, Mine, AllMine, Unique, Placed;
    var e, p, u := Last(s.redoStack), PopRedo(s), Redo(s).0;
    HistoryMoves(s, p, s.undoStack);
    HistoryMoves(s, p, s.redoStack);
    TopMine(p, s.redoStack);
    TidyMoves(s, p);
    Turns(p, e);
    var t, back := StepUndoRedo(p, e).state, StepUndoRedo(p, e).pushed.value;
    TurnedHistories(p, e, t, back, s.redoStack, s.undoStack);
    HistoryMoves(t, u, s.redoStack[..|s.redoStack| - 1]);
    HistoryMoves(t, u, s.undoStack + [back]);
    TidyMoves(t, u);
    PushPop(s.undoStack, back);
  }

  lemma TopMine(s: State, st: seq<Entry>)
    requires WF(s) && History(s, st) && st != []
    ensures Mine(s, Last(st)) && Last(st).hadEffect && (Last(st).op.Delete? <==> Last(st).Target() in Hidden(s))
  {
    LastIn(st);
  }

  lemma TidyMoves(s: State, t: State)
    requires Tidy(s) && t.tree == s.tree
    ensures Tidy(t)
  {
  }

  lemma PushPop(st: seq<Entry>, e: Entry)
    ensures (st + [e])[..|st + [e]| - 1] == st && Last(st + [e]) == e
  {
  }

  // ------------------------------------------------------------------ undoing and redoing

  function Undos(s: State, k: nat): (t: State)
    requires WF(s)
    ensures WF(t)
  {
    if k == 0 then s else Undo(Undos(s, k - 1)).0
  }

  function Redos(s: State, k: nat): (t: State)
    requires WF(s)
    ensures WF(t)
    decreases k
  {
    if k == 0 then s else Redos(Redo(s).0, k - 1)
  }

  /** `k` redos show what the top `k` redo entries say. */
  lemma {:induction false} RedosPeel(s: State, k: nat)
    requires Healthy(s) && k <= |s.redoStack|
    ensures Hidden(Redos(s, k)) == Peel(s.redoStack, Hidden(s), k)
    ensures Keys(Redos(s, k).tree) == Keys(s.tree) && Origins(Flat(Redos(s, k).tree)) == Origins(Flat(s.tree))
    decreases k
  {
    hide Redo, Chain, Tidy, Mine, AllMine, Unique, Placed, WF;
    if k > 0 {
      RedoShifts(s);
      RedosPeel(Redo(s).0, k - 1);
    }
  }

  /** `t` is `s` after `k` undos: its redo stack leads back to where the undos began. */
  ghost predicate WentBack(s: State, k: nat, t: State) {
    && k <= |s.undoStack| && Healthy(t) && t.undoStack == s.undoStack[..|s.undoStack| - k]
      && |t.redoStack| == |s.redoStack| + k
    && Peel(t.redoStack, Hidden(t), k) == Hidden(s)
    && Keys(t.tree) == Keys(s.tree) && Origins(Flat(t.tree)) == Origins(Flat(s.tree))
  }

  lemma WentBackMore(s: State, k: nat, t: State, u: State)
    requires 0 < k <= |s.undoStack| && WentBack(s, k - 1, t)
    requires Shifted(t, t.undoStack, t.redoStack, u, u.undoStack, u.redoStack)
    ensures WentBack(s, k, u)
  {
    hide Healthy;
    TakeTwice(s.undoStack, |s.undoStack| - k + 1);
  }

  lemma TakeTwice<T>(q: seq<T>, k: nat)
    requires 0 < k <= |q|
    ensures q[..k][..k - 1] == q[..k - 1]
  {
  }

  lemma UndosStarts(s: State)
    requires Healthy(s)
    ensures WentBack(s, 0, s)
  {
    hide Healthy;
    assert s.undoStack[..|s.undoStack|] == s.undoStack;
  }

  lemma CanGoBack(s: State, k: nat, t: State)
    requires WentBack(s, k, t) && k < |s.undoStack|
    ensures Healthy(t) && t.undoStack != []
  {
    hide Healthy;
  }

  lemma {:induction false} UndosPeel(s: State, k: nat)
    requires WF(s) && Healthy(s) && k <= |s.undoStack|
    ensures WentBack(s, k, Undos(s, k))
  {
    hide Healthy, WentBack, Shifted, Undo;
    if k == 0 {
      UndosStarts(s);
    } else {
      UndosPeel(s, k - 1);
      var t := Undos(s, k - 1);
      CanGoBack(s, k - 1, t);
      UndoShifts(t);
      WentBackMore(s, k, t, Undo(t).0);
    }
  }

  // ------------------------------------------------------------------ the text from the hidden nodes

  function VisibleValues(ops: seq<Op>, h: set<Id>): seq<nat> {
    if ops == [] then []
    else (if ops[0].id in h || !ops[0].Insert? then [] else [ops[0].value]) + VisibleValues(ops[1..], h)
  }

  lemma {:induction false} ValuesFromHidden(ns: seq<Node>, h: set<Id>)
    requires forall n :: n in ns ==> (n.deleted <==> n.id in h)
    ensures Values(Vis(ns)) == VisibleValues(Origins(ns), h)
  {
    if ns != [] {
      ValuesFromHidden(ns[1..], h);
      assert Origins(ns)[1..] == Origins(ns[1..]) && Origins(ns)[0] == ns[0].Origin();
      assert ns[0] in ns;
      ValuesFirst(ns);
    }
  }

  lemma ValuesFirst(a: seq<Node>)
    requires a != []
    ensures Values(Vis(a)) == (if a[0].deleted then [] else [a[0].value]) + Values(Vis(a[1..]))
  {
  }

  /** The text is what the document order shows outside the hidden nodes. */
  lemma TextFromHidden(s: State)
    requires WF(s)
    ensures Text(s.tree) == VisibleValues(Origins(Flat(s.tree)), Hidden(s))
  {
    NodesUnique(s.tree);
    ValuesFromHidden(Flat(s.tree), Hidden(s));
  }

  /** Undoing `k` times and redoing `k` times restores the visibility of every node, and the text. */
  lemma UndoRedoRestores(s: State, k: nat)
    requires Healthy(s) && k <= |s.undoStack|
    ensures
      var t := Redos(Undos(s, k), k);
      && Keys(t.tree) == Keys(s.tree)
      && (forall id :: Some(id) in Keys(s.tree) ==> NodeAt(t.tree, id).deleted == NodeAt(s.tree, id).deleted)
      && Text(t.tree) == Text(s.tree)
  {
    UndosPeel(s, k);
    RedosPeel(Undos(s, k), k);
    var t := Redos(Undos(s, k), k);
    forall id | Some(id) in Keys(s.tree) ensures NodeAt(t.tree, id).deleted == NodeAt(s.tree, id).deleted {
      HiddenAt(s, id);
      HiddenAt(t, id);
    }
    TextFromHidden(s);
    TextFromHidden(t);
  }

  // ------------------------------------------------------------------ a session of local edits

  function Session(s: State, acts: seq<Action>): (t: State)
    requires WF(s)
    ensures WF(t)
  {
    if acts == [] then s else Act(Session(s, acts[..|acts| - 1]), acts[|acts| - 1])
  }

  /** What would be hidden if everything was undone. */
  ghost function Root(s: State): set<Id> {
    Peel(s.undoStack, Hidden(s), |s.undoStack|)
  }

  function Kept(ops: seq<Op>, ks: set<Key>): seq<Op> {
    if ops == [] then [] else (if Some(ops[0].id) in ks then [ops[0]] else []) + Kept(ops[1..], ks)
  }

  /** With `root` hidden, the document order `ops` shows what `s0` shows. */
  ghost predicate Reaches(s0: State, keys: set<Key>, root: set<Id>, ops: seq<Op>) {
    && Keys(s0.tree) <= keys
    && (forall id :: Some(id) in keys ==> (id in root <==> Some(id) !in Keys(s0.tree) || id in Hidden(s0)))
    && Kept(ops, Keys(s0.tree)) == Origins(Flat(s0.tree))
  }

  /** `s` is healthy, and undoing everything would leave what was visible in `s0`, in its order. */
  ghost predicate Since(s0: State, s: State) {
    WF(s0) && Healthy(s) && Reaches(s0, Keys(s.tree), Root(s), Origins(Flat(s.tree)))
  }

  lemma {:induction false} KeptAll(ops: seq<Op>, ks: set<Key>)
    requires forall o :: o in ops ==> Some(o.id) in ks
    ensures Kept(ops, ks) == ops
  {
    if ops != [] {
      assert ops[0] in ops;
      KeptAll(ops[1..], ks);
    }
  }

  lemma {:induction false} KeptConcat(a: seq<Op>, b: seq<Op>, ks: set<Key>)
    ensures Kept(a + b, ks) == Kept(a, ks) + Kept(b, ks)
  {
    if a == [] {
      assert a + b == b;
    } else {
      assert (a + b)[1..] == a[1..] + b;
      KeptConcat(a[1..], b, ks);
      RegroupPrefix(if Some(a[0].id) in ks then [a[0]] else [], Kept(a[1..], ks), Kept(b, ks));
    }
  }

  lemma SinceStart(s: State)
    requires WF(s) && Tidy(s) && s.undoStack == [] && s.redoStack == []
    ensures Since(s, s)
  {
    OriginsPresent(s);
    KeptAll(Origins(Flat(s.tree)), Keys(s.tree));
  }

  lemma RootAfterPop(st: seq<Entry>, h: set<Id>)
    requires st != []
    ensures Peel(st, h, |st|) == Peel(st[..|st| - 1], Back(h, Last(st)), |st| - 1)
  {
  }

  lemma SinceUndo(s0: State, s: State)
    requires Since(s0, s)
    ensures Since(s0, Undo(s).0)
  {
    if s.undoStack != [] {
      UndoShifts(s);
      RootAfterPop(s.undoStack, Hidden(s));
    }
  }

  lemma SinceRedo(s0: State, s: State)
    requires Since(s0, s)
    ensures Since(s0, Redo(s).0)
  {
    if s.redoStack != [] {
      RedoShifts(s);
      RootAfterPop(Redo(s).0.undoStack, Hidden(Redo(s).0));
    }
  }

  lemma {:induction false} TargetsElsewhere(s: State, st: seq<Entry>, x: Id)
    requires WF(s) && AllMine(s, st) && Some(x) !in Keys(s.tree)
    ensures forall e :: e in st ==> e.Target() != x
  {
  }

  /** Pushing an entry whose reversal leads to `h`. */
  lemma PushedHistory(st: seq<Entry>, h: set<Id>, e: Entry)
    requires e.hadEffect && (e.op.Delete? <==> e.Target() in h) && Chain(st, Back(h, e))
    ensures Chain(st + [e], h) && Peel(st + [e], h, |st + [e]|) == Peel(st, Back(h, e), |st|)
  {
    assert (st + [e])[..|st|] == st;
  }

  lemma KeptInsert(ops: seq<Op>, i: nat, op: Op, ks: set<Key>)
    requires i <= |ops| && Some(op.id) !in ks
    ensures Kept(SeqInsert(ops, i, op), ks) == Kept(ops, ks)
  {
    assert ops == ops[..i] + ops[i..];
    KeptConcat(ops[..i], ops[i..], ks);
    KeptConcat(ops[..i] + [op], ops[i..], ks);
    KeptConcat(ops[..i], [op], ks);
    KeptNone(op, ks);
    DropEmpty(Kept(ops[..i], ks), Kept([op], ks), Kept(ops[i..], ks));
  }

  lemma KeptNone(op: Op, ks: set<Key>)
    requires Some(op.id) !in ks
    ensures Kept([op], ks) == []
  {
    assert [op][1..] == [];
  }

  lemma OriginsInsert(ns: seq<Node>, i: nat, n: Node)
    requires i <= |ns|
    ensures Origins(SeqInsert(ns, i, n)) == SeqInsert(Origins(ns), i, n.Origin())
  {
  }

  /** A new node at the top of the undo stack. */
  lemma InsertHistory(s: State, op: Op, t: State)
    requires Healthy(s) && Mintable(s, op) && op.Insert? && t == Perform(Tick(s), op)
    ensures Tidy(t) && Hidden(t) == Hidden(s) && op.id !in Hidden(s) && Keys(t.tree) == Keys(s.tree) + {Some(op.id)}
    ensures History(t, s.undoStack + [Entry(op, true)])
    ensures Peel(s.undoStack + [Entry(op, true)], Hidden(t), |s.undoStack + [Entry(op, true)]|) == Root(s) + {op.id}
  {
    hide Unique, Placed;
    var e, h := Entry(op, true), Hidden(s);
    EffectDoc(s, op);
    EffectHidden(s, op, t);
    TidyKept(s, op, t);
    DocKeys(s.tree);
    TargetsElsewhere(s, s.undoStack, op.id);
    ChainElsewhere(s.undoStack, h, op.id);
    PushedHistory(s.undoStack, h, e);
    FindNew(s.tree, NewNode(op));
    forall o | o in s.undoStack + [e] ensures Mine(t, o) {
      if o in s.undoStack { MineKept(s, op, t, o); }
    }
  }

  lemma InsertKept(s: State, op: Op, ks: set<Key>)
    requires WF(s) && Mintable(s, op) && op.Insert? && Some(op.id) !in ks
    ensures Kept(Origins(Flat(Effect(s.tree, op))), ks) == Kept(Origins(Flat(s.tree)), ks)
  {
    var i := AttachSplit(s.tree, NewNode(op));
    OriginsInsert(Flat(s.tree), i, NewNode(op));
    KeptInsert(Origins(Flat(s.tree)), i, op, ks);
  }

  lemma SinceInsert(s0: State, s: State, op: Op, t: State)
    requires Since(s0, s) && Mintable(s, op) && op.Insert?
    requires t == ClearRedo(PushUndo(Perform(Tick(s), op), Entry(op, true)))
    ensures Since(s0, t)
  {
    hide Unique, Placed, Chain, Mine, AllMine, Tidy, Hidden, Peel, Kept;
    var p := Perform(Tick(s), op);
    InsertHistory(s, op, p);
    HistoryMoves(p, t, s.undoStack + [Entry(op, true)]);
    TidyMoves(p, t);
    EmptyHistory(t);
    InsertKept(s, op, Keys(s0.tree));
    HiddenMoves(p, t);
  }

  lemma EmptyHistory(s: State)
    requires WF(s)
    ensures History(s, [])
  {
  }

  lemma HiddenMoves(s: State, t: State)
    requires s.tree == t.tree
    ensures Hidden(s) == Hidden(t)
  {
  }

  lemma SinceType(s0: State, s: State, v: int, value: nat, bind: bool)
    requires WF(s) && Since(s0, s)
    ensures LocalInsert(s, v, value, bind).Some? ==> Since(s0, LocalInsert(s, v, value, bind).value)
  {
    hide Since;
    if 0 <= v <= NumVis(Flat(s.tree)) {
      InsertMintable(s, v, value, bind);
      SinceInsert(s0, s, InsertOp(s, v, value, bind), LocalInsert(s, v, value, bind).value);
    }
  }

  /** A tombstone at the top of the undo stack. */
  lemma DeleteHistory(s: State, op: Op, t: State)
    requires Healthy(s) && Mintable(s, op) && op.Delete? && op.target !in Hidden(s) && t == Perform(Tick(s), op)
    ensures Tidy(t) && Keys(t.tree) == Keys(s.tree) && Hidden(t) == Hidden(s) + {op.target}
    ensures History(t, s.undoStack + [Entry(op, true)])
    ensures Peel(s.undoStack + [Entry(op, true)], Hidden(t), |s.undoStack + [Entry(op, true)]|) == Root(s)
  {
    hide Unique, Placed;
    var e := Entry(op, true);
    HiddenAt(s, op.target);
    EffectDoc(s, op);
    EffectHidden(s, op, t);
    TidyKept(s, op, t);
    assert Back(Hidden(t), e) == Hidden(s);
    PushedHistory(s.undoStack, Hidden(t), e);
    EffectNodeAt(s, op, op.target);
    DocNodeBack(s.tree, op.target);
    forall o | o in s.undoStack + [e] ensures Mine(t, o) {
      if o in s.undoStack { MineKept(s, op, t, o); }
    }
  }

  lemma SinceDelete(s0: State, s: State, op: Op, t: State)
    requires Since(s0, s) && s.redoStack == [] && Mintable(s, op) && op.Delete? && op.target !in Hidden(s)
    requires t == PushUndo(Perform(Tick(s), op), Entry(op, true))
    ensures Since(s0, t)
  {
    hide Unique, Placed, Chain, Mine, AllMine, Tidy, Hidden, Peel, Kept;
    var p := Perform(Tick(s), op);
    DeleteHistory(s, op, p);
    HistoryMoves(p, t, s.undoStack + [Entry(op, true)]);
    TidyMoves(p, t);
    EmptyHistory(t);
    EffectOrigins(s, op);
    HiddenMoves(p, t);
  }

  lemma SinceDeleteOne(s0: State, s: State, v: int)
    requires WF(s) && Since(s0, s) && s.redoStack == []
    ensures Since(s0, DeleteOne(s, v)) && DeleteOne(s, v).redoStack == []
  {
    hide Since;
    if InRange(s, v) {
      DeletePerformed(s, v);
      VisInFlat(Flat(s.tree), v);
      NodesUnique(s.tree);
      SinceDelete(s0, s, DeleteOp(s, v), DeleteOne(s, v));
    }
  }

  lemma {:induction false} SinceRounds(s0: State, s: State, v: int, n: nat)
    requires WF(s) && Since(s0, s) && s.redoStack == []
    ensures Since(s0, DeleteRounds(s, v, n)) && DeleteRounds(s, v, n).redoStack == []
  {
    hide Since, DeleteOne, WF;
    if n > 0 {
      SinceRounds(s0, s, v, n - 1);
      SinceDeleteOne(s0, DeleteRounds(s, v, n - 1), v);
    }
  }

  lemma SinceErase(s0: State, s: State, v: int, count: int)
    requires WF(s) && Since(s0, s)
    ensures Since(s0, LocalDelete(s, v, count).0)
  {
    hide DeleteRounds, DeleteOps;
    HistoryMoves(s, ClearRedo(s), s.undoStack);
    SinceRounds(s0, ClearRedo(s), v, if count < 0 then 0 else count);
  }

  /** Any local edits, undos and redos keep both stacks histories of the visibility. */
  lemma {:induction false} SessionHealthy(s: State, acts: seq<Action>)
    requires WF(s) && Tidy(s) && s.undoStack == [] && s.redoStack == [] && forall a :: a in acts ==> !a.Arrive?
    ensures Since(s, Session(s, acts))
  {
    hide Since, WF, Undo, Redo, LocalDelete, LocalInsert;
    if acts == [] {
      SinceStart(s);
    } else {
      SessionHealthy(s, acts[..|acts| - 1]);
      var t, a := Session(s, acts[..|acts| - 1]), acts[|acts| - 1];
      assert a in acts;
      match a
      case TypeAt(_, v, value, bind) => SinceType(s, t, v, value, bind);
      case EraseAt(_, v, count) => SinceErase(s, t, v, count);
      case UndoAt(_) => SinceUndo(s, t);
      case RedoAt(_) => SinceRedo(s, t);
      case Arrive(_, _, _) =>
    }
  }

  lemma {:induction false} SinceUndos(s0: State, s: State, k: nat)
    requires WF(s) && Since(s0, s)
    ensures Since(s0, Undos(s, k))
  {
    hide Since, WF, Undo;
    if k > 0 {
      SinceUndos(s0, s, k - 1);
      SinceUndo(s0, Undos(s, k - 1));
    }
  }

  lemma VisibleCons(o: Op, ops: seq<Op>, h: set<Id>)
    ensures VisibleValues([o] + ops, h) == (if o.id in h || !o.Insert? then [] else [o.value]) + VisibleValues(ops, h)
  {
    assert ([o] + ops)[1..] == ops;
  }

  lemma {:induction false} VisibleKept(ops: seq<Op>, ks: set<Key>, h: set<Id>, h0: set<Id>)
    requires forall o :: o in ops ==> (o.id in h <==> Some(o.id) !in ks || o.id in h0)
    ensures VisibleValues(ops, h) == VisibleValues(Kept(ops, ks), h0)
  {
    if ops != [] {
      assert ops[0] in ops && forall o :: o in ops[1..] ==> o in ops;
      VisibleKept(ops[1..], ks, h, h0);
      assert (ops[0].id in h <==> Some(ops[0].id) !in ks || ops[0].id in h0);
      VisibleCons(ops[0], Kept(ops[1..], ks), h0);
      if Some(ops[0].id) !in ks { assert Kept(ops, ks) == Kept(ops[1..], ks); }
    }
  }

  lemma OriginsPresent(s: State)
    requires WF(s)
    ensures forall o :: o in Origins(Flat(s.tree)) ==> Some(o.id) in Keys(s.tree)
  {
    DocKeys(s.tree);
    forall o | o in Origins(Flat(s.tree)) ensures Some(o.id) in Keys(s.tree) {
      var i :| 0 <= i < |Flat(s.tree)| && Origins(Flat(s.tree))[i] == o;
      assert Flat(s.tree)[i] in Flat(s.tree);
    }
  }

  /** With the undo stack empty, the document shows what it showed at the start. */
  lemma SinceText(s0: State, s: State)
    requires Since(s0, s) && s.undoStack == []
    ensures Text(s.tree) == Text(s0.tree)
  {
    hide Unique, Placed, Chain, Kept;
    TextFromHidden(s0);
    TextFromHidden(s);
    OriginsPresent(s);
    VisibleKept(Origins(Flat(s.tree)), Keys(s0.tree), Hidden(s), Hidden(s0));
  }

  lemma UndoneStack(s: State)
    requires WF(s) && Healthy(s)
    ensures Undos(s, |s.undoStack|).undoStack == []
  {
    hide Healthy, Undo, Undos;
    UndosPeel(s, |s.undoStack|);
  }

  /**
   * Undoing everything after any session of local edits, undos and redos restores the text the
   * session started from, whatever else has been typed, erased, undone and redone since.
   */
  lemma UndoAllRestores(s: State, acts: seq<Action>)
    requires WF(s) && Tidy(s) && s.undoStack == [] && s.redoStack == [] && forall a :: a in acts ==> !a.Arrive?
    ensures
      var t := Session(s, acts);
      Text(Undos(t, |t.undoStack|).tree) == Text(s.tree)
  {
    hide Healthy, Undo, Undos, Session, Reaches;
    var t := Session(s, acts);
    SessionHealthy(s, acts);
    UndoneStack(t);
    SinceUndos(s, t, |t.undoStack|);
    SinceText(s, Undos(t, |t.undoStack|));
  }

  /** In the same session, undoing some of it and redoing as much changes nothing one can see. */
  lemma SessionUndoRedo(s: State, acts: seq<Action>, k: nat)
    requires WF(s) && Tidy(s) && s.undoStack == [] && s.redoStack == [] && forall a :: a in acts ==> !a.Arrive?
    requires k <= |Session(s, acts).undoStack|
    ensures
      var t := Session(s, acts);
      && Keys(Redos(Undos(t, k), k).tree) == Keys(t.tree)
      && Text(Redos(Undos(t, k), k).tree) == Text(t.tree)
      && forall id :: Some(id) in Keys(t.tree) ==>
           NodeAt(Redos(Undos(t, k), k).tree, id).deleted == NodeAt(t.tree, id).deleted
  {
    hide Healthy, Undo, Undos, Redos, Session, Reaches;
    SessionHealthy(s, acts);
    UndoRedoRestores(Session(s, acts), k);
  }
}
