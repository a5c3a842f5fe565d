/**
 * Whole runs of a red-black tree against a plain set of keys.
 */
module RedBlackRuns {
  import opened Basics
  import opened RedBlackTrees
  import opened RedBlackStore
  import opened RedBlack
  import opened RedBlackLookup
  import opened Memory

  datatype Op = Put(key: int) | Take(key: int) | Ask(mode: Mode, key: int)

  function Applied(s: set<int>, op: Op): set<int> {
    match op
    case Put(key) => s + {key}
    case Take(key) => s - {key}
    case Ask(_, _) => s
  }

  // The set of keys after a run.
  function KeysAfter(ops: seq<Op>): set<int> {
    if ops == [] then {} else Applied(KeysAfter(ops[..|ops| - 1]), ops[|ops| - 1])
  }

  // Inexact lookups are made in non-empty trees only.
  predicate Served(s: set<int>, op: Op) {
    op.Ask? && (op.mode.GreaterOrEqual? || op.mode.LessOrEqual? || op.mode.Less? || op.mode.Greater?) ==> s != {}
  }

  ghost predicate Serving(tree: RbTree, past: seq<Op>)
    reads tree
  {
    tree.Valid() && Keys(tree.Contents()) == KeysAfter(past)
  }

  method Serve(tree: RbTree, ghost past: seq<Op>, op: Op) returns (answer: Option<int>)
    requires Serving(tree, past) && Served(KeysAfter(past), op)
    modifies tree
    ensures Serving(tree, past + [op])
    ensures op.Ask? ==> Answers(op.mode, op.key, KeysAfter(past), answer)
  {
    hide Spells, IsRedBlack, Answers;
    assert (past + [op])[..|past|] == past;
    answer := None;
    match op
    case Put(key) =>
      var memory := Allocate(tree.store.Keys, NIL);
      var z := tree.Insert(key, memory);
    case Take(key) =>
      var found := tree.Delete(key);
    case Ask(mode, key) =>
      answer := Lookup(mode, key, tree);
  }

  method Start() returns (tree: RbTree)
    ensures fresh(tree) && Serving(tree, [])
  {
    tree := new RbTree();
  }

  // The answers so far are those the set gives.
  ghost predicate Answered(ops: seq<Op>, answers: seq<Option<int>>) {
    |answers| <= |ops| && forall i | 0 <= i < |answers| && ops[i].Ask? :: Answers(ops[i].mode, ops[i].key, KeysAfter(ops[..i]), answers[i])
  }

  lemma AnsweredMore(ops: seq<Op>, answers: seq<Option<int>>, answer: Option<int>)
    requires Answered(ops, answers) && |answers| < |ops|
    requires var op := ops[|answers|]; op.Ask? ==> Answers(op.mode, op.key, KeysAfter(ops[..|answers|]), answer)
    ensures Answered(ops, answers + [answer])
  {
    hide Answers, KeysAfter;
  }

  // Any run of insertions, deletions and lookups: after every operation the tree is a red-black
  // search tree holding exactly the keys of the set, and each lookup gets the key it names.
  method Replay(ops: seq<Op>) returns (answers: seq<Option<int>>, keys: seq<int>)
    requires forall i | 0 <= i < |ops| :: Served(KeysAfter(ops[..i]), ops[i])
    ensures |answers| == |ops| && Answered(ops, answers)
    ensures Ascending(keys) && Keys(keys) == KeysAfter(ops)
  {
    hide Answers, Served, Serving, KeysAfter, Ascending, Keys;
    var tree := Start();
    answers := [];
    for i := 0 to |ops|
      invariant fresh(tree) && Serving(tree, ops[..i]) && |answers| == i && Answered(ops, answers)
    {
      var answer := Serve(tree, ops[..i], ops[i]);
      assert ops[..i + 1] == ops[..i] + [ops[i]];
      AnsweredMore(ops, answers, answer);
      answers := answers + [answer];
    }
    assert ops[..|ops|] == ops;
    keys := AllKeys(tree, ops);
  }

  method AllKeys(tree: RbTree, ghost past: seq<Op>) returns (keys: seq<int>)
    requires Serving(tree, past)
    ensures Ascending(keys) && Keys(keys) == KeysAfter(past)
  {
    keys := ReadAll(tree);
  }
}
