/** Renaming tensors in an exported ONNX graph: the in-place edit, and what it does to the function that the graph
    computes. Graphs are flat: no node holds a graph of its own. */
module GraphRename {

  import opened Wrappers

  /** An empty name is an omitted operand, or a result that nobody wants. */
  datatype Node = Node(op: nat, ins: seq<string>, outs: seq<string>)

  datatype Init<V> = Init(name: string, value: V)

  datatype Model<V> = Model(nodes: seq<Node>, inputs: seq<string>, outputs: seq<string>, valueInfo: seq<string>,
                            initializers: seq<Init<V>>, sparse: seq<Init<V>>)

  // ---------------------------------------------------------------- meaning

  /** What every operator computes: operands, some of them omitted, to results. */
  type Semantics<!V> = (nat, seq<Option<V>>) -> seq<V>

  type Env<V> = map<string, V>

  function Lookup<V>(env: Env<V>, name: string): Option<V> {
    if name != "" && name in env then Some(env[name]) else None
  }

  function Args<V>(env: Env<V>, names: seq<string>): seq<Option<V>> {
    seq(|names|, i requires 0 <= i < |names| => Lookup(env, names[i]))
  }

  /** Names and values in parallel; surplus names stay unbound. */
  function Bind<V>(env: Env<V>, names: seq<string>, values: seq<V>): Env<V>
    decreases |names|
  {
    if names == [] || values == [] then env
    else Bind(env[names[0] := values[0]], names[1..], values[1..])
  }

  function Constants<V>(env: Env<V>, inits: seq<Init<V>>): Env<V>
    decreases |inits|
  {
    if inits == [] then env else Constants(env[inits[0].name := inits[0].value], inits[1..])
  }

  /** Nodes run in order, as the format requires of a graph. */
  function RunNodes<V>(sem: Semantics<V>, env: Env<V>, nodes: seq<Node>): Env<V>
    decreases |nodes|
  {
    if nodes == [] then env
    else RunNodes(sem, Bind(env, nodes[0].outs, sem(nodes[0].op, Args(env, nodes[0].ins))), nodes[1..])
  }

  /** Initializers are defaults that a fed input overrides. */
  function Evaluate<V>(sem: Semantics<V>, m: Model<V>, fed: seq<V>): seq<Option<V>> {
    var env := Bind(Constants(Constants(map[], m.initializers), m.sparse), m.inputs, fed);
    Args(RunNodes(sem, env, m.nodes), m.outputs)
  }

  // ---------------------------------------------------------------- the renaming

  function Rho(oldName: string, newName: string, name: string): string {
    if name == oldName then newName else name
  }

  function Names(oldName: string, newName: string, names: seq<string>): seq<string> {
    seq(|names|, i requires 0 <= i < |names| => Rho(oldName, newName, names[i]))
  }

  function InNode(oldName: string, newName: string, n: Node): Node {
    Node(n.op, Names(oldName, newName, n.ins), Names(oldName, newName, n.outs))
  }

  function InNodes(oldName: string, newName: string, nodes: seq<Node>): seq<Node> {
    seq(|nodes|, i requires 0 <= i < |nodes| => InNode(oldName, newName, nodes[i]))
  }

  function InInits<V>(oldName: string, newName: string, inits: seq<Init<V>>): seq<Init<V>> {
    seq(|inits|, i requires 0 <= i < |inits| => inits[i].(name := Rho(oldName, newName, inits[i].name)))
  }

  function Rename<V>(m: Model<V>, oldName: string, newName: string): Model<V> {
    if oldName == newName then m
    else Model(InNodes(oldName, newName, m.nodes), Names(oldName, newName, m.inputs), Names(oldName, newName, m.outputs),
               Names(oldName, newName, m.valueInfo), InInits(oldName, newName, m.initializers), InInits(oldName, newName, m.sparse))
  }

  /** The renaming, place by place: every occurrence of the old name is replaced, and nothing else is touched. */
  ghost predicate Replaced(names: seq<string>, renamed: seq<string>, oldName: string, newName: string) {
    |renamed| == |names| && forall i :: 0 <= i < |names| ==> renamed[i] == if names[i] == oldName then newName else names[i]
  }

  lemma RenamesEverywhere<V>(m: Model<V>, oldName: string, newName: string)
    ensures var r := Rename(m, oldName, newName);
            && Replaced(m.inputs, r.inputs, oldName, newName) && Replaced(m.outputs, r.outputs, oldName, newName)
            && Replaced(m.valueInfo, r.valueInfo, oldName, newName)
            && |r.nodes| == |m.nodes| && |r.initializers| == |m.initializers| && |r.sparse| == |m.sparse|
            && (forall i :: 0 <= i < |m.nodes| ==>
                  && r.nodes[i].op == m.nodes[i].op
                  && Replaced(m.nodes[i].ins, r.nodes[i].ins, oldName, newName)
                  && Replaced(m.nodes[i].outs, r.nodes[i].outs, oldName, newName))
            && (forall i :: 0 <= i < |m.initializers| ==>
                  r.initializers[i] == Init(if m.initializers[i].name == oldName then newName else m.initializers[i].name,
                                            m.initializers[i].value))
            && (forall i :: 0 <= i < |m.sparse| ==>
                  r.sparse[i] == Init(if m.sparse[i].name == oldName then newName else m.sparse[i].name, m.sparse[i].value))
  {
  }

  predicate FreshInInits<V>(inits: seq<Init<V>>, name: string) {
    forall i :: 0 <= i < |inits| ==> inits[i].name != name
  }

  predicate FreshInNodes(nodes: seq<Node>, name: string) {
    forall i :: 0 <= i < |nodes| ==> name !in nodes[i].ins && name !in nodes[i].outs
  }

  /** The name occurs nowhere that matters to evaluation. */
  predicate Fresh<V>(m: Model<V>, name: string) {
    && FreshInNodes(m.nodes, name) && name !in m.inputs && name !in m.outputs
    && FreshInInits(m.initializers, name) && FreshInInits(m.sparse, name)
  }

  /** Two environments that tell the same, one under the old name and one under the new. */
  ghost predicate Same<V>(env: Env<V>, env': Env<V>, oldName: string, newName: string) {
    forall name: string :: name != newName ==> Lookup(env', Rho(oldName, newName, name)) == Lookup(env, name)
  }

  lemma SameUpdate<V>(env: Env<V>, env': Env<V>, oldName: string, newName: string, name: string, value: V)
    requires oldName != "" && newName != "" && name != newName && Same(env, env', oldName, newName)
    ensures Same(env[name := value], env'[Rho(oldName, newName, name) := value], oldName, newName)
  {
    var next, next' := env[name := value], env'[Rho(oldName, newName, name) := value];
    forall n: string | n != newName ensures Lookup(next', Rho(oldName, newName, n)) == Lookup(next, n) {
      assert Lookup(env', Rho(oldName, newName, n)) == Lookup(env, n);
    }
  }

  lemma {:induction false} BindSame<V>(env: Env<V>, env': Env<V>, oldName: string, newName: string, names: seq<string>, values: seq<V>)
    requires oldName != "" && newName != "" && newName !in names && Same(env, env', oldName, newName)
    ensures Same(Bind(env, names, values), Bind(env', Names(oldName, newName, names), values), oldName, newName)
    decreases |names|
  {
    if names != [] && values != [] {
      SameUpdate(env, env', oldName, newName, names[0], values[0]);
      assert Names(oldName, newName, names)[1..] == Names(oldName, newName, names[1..]);
      BindSame(env[names[0] := values[0]], env'[Rho(oldName, newName, names[0]) := values[0]], oldName, newName, names[1..], values[1..]);
    }
  }

  lemma {:induction false} ConstantsSame<V>(env: Env<V>, env': Env<V>, oldName: string, newName: string, inits: seq<Init<V>>)
    requires oldName != "" && newName != "" && FreshInInits(inits, newName) && Same(env, env', oldName, newName)
    ensures Same(Constants(env, inits), Constants(env', InInits(oldName, newName, inits)), oldName, newName)
    decreases |inits|
  {
    if inits != [] {
      SameUpdate(env, env', oldName, newName, inits[0].name, inits[0].value);
      assert InInits(oldName, newName, inits)[1..] == InInits(oldName, newName, inits[1..]);
      ConstantsSame(env[inits[0].name := inits[0].value], env'[Rho(oldName, newName, inits[0].name) := inits[0].value],
                    oldName, newName, inits[1..]);
    }
  }

  lemma ArgsSame<V>(env: Env<V>, env': Env<V>, oldName: string, newName: string, names: seq<string>)
    requires newName !in names && Same(env, env', oldName, newName)
    ensures Args(env', Names(oldName, newName, names)) == Args(env, names)
  {
    forall i | 0 <= i < |names|
      ensures Args(env', Names(oldName, newName, names))[i] == Args(env, names)[i]
    {
      assert names[i] in names;
    }
  }

  lemma {:induction false} NodesSame<V>(sem: Semantics<V>, env: Env<V>, env': Env<V>, oldName: string, newName: string, nodes: seq<Node>)
    requires oldName != "" && newName != "" && FreshInNodes(nodes, newName) && Same(env, env', oldName, newName)
    ensures Same(RunNodes(sem, env, nodes), RunNodes(sem, env', InNodes(oldName, newName, nodes)), oldName, newName)
    decreases |nodes|
  {
    if nodes != [] {
      var n := nodes[0];
      ArgsSame(env, env', oldName, newName, n.ins);
      var results := sem(n.op, Args(env, n.ins));
      BindSame(env, env', oldName, newName, n.outs, results);
      assert InNodes(oldName, newName, nodes)[0] == InNode(oldName, newName, n);
      assert InNodes(oldName, newName, nodes)[1..] == InNodes(oldName, newName, nodes[1..]);
      NodesSame(sem, Bind(env, n.outs, results), Bind(env', Names(oldName, newName, n.outs), results), oldName, newName, nodes[1..]);
    }
  }

  /** Renaming a tensor throughout a graph to a name that does not occur in it changes nothing that the graph
      computes, whatever its operators mean and whatever it is fed. */
  lemma RenamePreservesEvaluation<V>(sem: Semantics<V>, m: Model<V>, oldName: string, newName: string, fed: seq<V>)
    requires oldName != "" && newName != "" && (oldName == newName || Fresh(m, newName))
    ensures Evaluate(sem, Rename(m, oldName, newName), fed) == Evaluate(sem, m, fed)
  {
    if oldName != newName {
      var r, empty: Env<V> := Rename(m, oldName, newName), map[];
      assert Same(empty, empty, oldName, newName);
      ConstantsSame(empty, empty, oldName, newName, m.initializers);
      var c, c' := Constants(empty, m.initializers), Constants(empty, r.initializers);
      ConstantsSame(c, c', oldName, newName, m.sparse);
      var d, d' := Constants(c, m.sparse), Constants(c', r.sparse);
      BindSame(d, d', oldName, newName, m.inputs, fed);
      var e, e' := Bind(d, m.inputs, fed), Bind(d', r.inputs, fed);
      NodesSame(sem, e, e', oldName, newName, m.nodes);
      ArgsSame(RunNodes(sem, e, m.nodes), RunNodes(sem, e', r.nodes), oldName, newName, m.outputs);
    }
  }

  // ---------------------------------------------------------------- stable names for the server

  predicate Normalizable<V>(m: Model<V>) {
    |m.inputs| == 1 && |m.outputs| >= 1
  }

  function WithInput<V>(m: Model<V>, inputName: string): Model<V>
    requires Normalizable(m)
  {
    Rename(m, m.inputs[0], inputName)
  }

  /** One input and one output, under the names the server expects. */
  function Normalize<V>(m: Model<V>, inputName: string, outputName: string): Model<V>
    requires Normalizable(m)
  {
    var m1 := WithInput(m, inputName);
    var m2 := m1.(inputs := [inputName], outputs := m1.outputs[..1]);
    Rename(m2, m2.outputs[0], outputName).(outputs := [outputName])
  }

  /** Each name is the tensor's own already, or new to the graph. */
  predicate NamesAreFree<V>(m: Model<V>, inputName: string, outputName: string)
    requires Normalizable(m)
  {
    && m.inputs[0] != "" && m.outputs[0] != "" && inputName != "" && outputName != ""
    && (m.inputs[0] == inputName || Fresh(m, inputName))
    && (m.outputs[0] == outputName || (Fresh(m, outputName) && outputName != inputName))
  }

  lemma FreshThroughRename<V>(m: Model<V>, oldName: string, newName: string, name: string)
    requires Fresh(m, name) && name != newName
    ensures Fresh(Rename(m, oldName, newName), name)
  {
    var r := Rename(m, oldName, newName);
    if oldName != newName {
      forall i | 0 <= i < |r.nodes| ensures name !in r.nodes[i].ins && name !in r.nodes[i].outs {
        assert r.nodes[i] == InNode(oldName, newName, m.nodes[i]);
        FreshThroughNames(m.nodes[i].ins, oldName, newName, name);
        FreshThroughNames(m.nodes[i].outs, oldName, newName, name);
      }
      FreshThroughNames(m.inputs, oldName, newName, name);
      FreshThroughNames(m.outputs, oldName, newName, name);
    }
  }

  lemma FreshThroughNames(names: seq<string>, oldName: string, newName: string, name: string)
    requires name !in names && name != newName
    ensures name !in Names(oldName, newName, names)
  {
    forall i | 0 <= i < |names| ensures Names(oldName, newName, names)[i] != name {
      assert names[i] in names;
    }
  }

  lemma OldNameIsGone<V>(m: Model<V>, oldName: string, newName: string)
    requires oldName != newName
    ensures Fresh(Rename(m, oldName, newName), oldName)
  {
    var r := Rename(m, oldName, newName);
    forall i | 0 <= i < |r.nodes| ensures oldName !in r.nodes[i].ins && oldName !in r.nodes[i].outs {
      assert r.nodes[i] == InNode(oldName, newName, m.nodes[i]);
    }
  }

  /** Dropping outputs leaves the first one the same function of the inputs. */
  lemma FirstOutputStays<V>(sem: Semantics<V>, m: Model<V>, fed: seq<V>)
    requires |m.outputs| >= 1
    ensures |Evaluate(sem, m.(outputs := m.outputs[..1]), fed)| == 1
    ensures Evaluate(sem, m.(outputs := m.outputs[..1]), fed)[0] == Evaluate(sem, m, fed)[0]
  {
  }

  /** After normalising, the graph has one output, and it is the same function of the input as the first output was. */
  lemma NormalizePreservesFirstOutput<V>(sem: Semantics<V>, m: Model<V>, inputName: string, outputName: string, x: V)
    requires Normalizable(m) && NamesAreFree(m, inputName, outputName)
    ensures var n := Normalize(m, inputName, outputName);
            n.outputs == [outputName] && Evaluate(sem, n, [x]) == [Evaluate(sem, m, [x])[0]]
  {
    RenamePreservesEvaluation(sem, m, m.inputs[0], inputName, [x]);
    var m1 := WithInput(m, inputName);
    assert m1.inputs == [inputName];
    FirstOutputStays(sem, m1, [x]);
    var m2 := m1.(inputs := [inputName], outputs := m1.outputs[..1]);
    if m2.outputs[0] != outputName && m.outputs[0] == outputName {
      OldNameIsGone(m, m.inputs[0], inputName);
      assert Fresh(m2, outputName);
    } else if m2.outputs[0] != outputName {
      FreshThroughRename(m, m.inputs[0], inputName, outputName);
      assert Fresh(m2, outputName);
    }
    RenamePreservesEvaluation(sem, m2, m2.outputs[0], outputName, [x]);
    assert Rename(m2, m2.outputs[0], outputName).outputs == [outputName];
  }

  /** The input keeps the name it was given exactly if the graph is not a bare pass-through: when its first output is
      its input, naming the output renames the input too. */
  lemma InputNameHoldsIff<V>(m: Model<V>, inputName: string, outputName: string)
    requires Normalizable(m) && NamesAreFree(m, inputName, outputName) && inputName != outputName
    ensures |Normalize(m, inputName, outputName).inputs| == 1
    ensures Normalize(m, inputName, outputName).inputs[0] == inputName <==> m.outputs[0] != m.inputs[0]
  {
    var m1 := WithInput(m, inputName);
    assert m1.inputs == [inputName];
    assert m1.outputs[0] == Rho(m.inputs[0], inputName, m.outputs[0]);
    assert m.outputs[0] in m.outputs;
  }

  function Subtract(op: nat, args: seq<Option<int>>): seq<int> {
    if |args| == 2 && args[0].Some? && args[1].Some? then [args[0].value - args[1].value] else []
  }

  /** Why the new name must be new: with one node that reads "x" and "y", renaming "x" to "y" feeds it one value twice. */
  lemma CaptureChangesTheFunction()
    ensures var m := Model([Node(0, ["x", "y"], ["z"])], ["x", "y"], ["z"], [], [], []);
            Evaluate(Subtract, m, [3, 1]) == [Some(2)] && Evaluate(Subtract, Rename(m, "x", "y"), [3, 1]) == [Some(0)]
  {
  }

  // ---------------------------------------------------------------- the edit in place

  class Graph<V> {
    var nodes: seq<Node>
    var inputs: seq<string>
    var outputs: seq<string>
    var valueInfo: seq<string>
    var initializers: seq<Init<V>>
    var sparse: seq<Init<V>>

    constructor (m: Model<V>)
      ensures Contents() == m
    {
      nodes, inputs, outputs, valueInfo := m.nodes, m.inputs, m.outputs, m.valueInfo;
      initializers, sparse := m.initializers, m.sparse;
    }

    function Contents(): Model<V>
      reads this
    {
      Model(nodes, inputs, outputs, valueInfo, initializers, sparse)
    }

    /** Every node's operands and results, then every declaration, wherever the old name stands. */
    method RenameTensorValue(oldName: string, newName: string)
      modifies this
      ensures Contents() == Rename(old(Contents()), oldName, newName)
    {
      if oldName == newName {
        return;
      }
      nodes := RenameNodes(nodes, oldName, newName);
      inputs := RenameIn(inputs, oldName, newName);
      outputs := RenameIn(outputs, oldName, newName);
      valueInfo := RenameIn(valueInfo, oldName, newName);
      initializers := RenameInits(initializers, oldName, newName);
      sparse := RenameInits(sparse, oldName, newName);
    }

    /** Keep one output and enforce the names; None is a graph that is refused. */
    method NormalizeIo(inputName: string, outputName: string) returns (done: bool)
      modifies this
      ensures done <==> Normalizable(old(Contents()))
      ensures done <==> |old(inputs)| == 1 && |old(outputs)| >= 1
      ensures done ==> |inputs| == 1 && outputs == [outputName]
      ensures Contents() == if done then Normalize(old(Contents()), inputName, outputName) else old(Contents())
    {
      if |inputs| != 1 || |outputs| < 1 {
        return false;
      }
      RenameTensorValue(inputs[0], inputName);
      inputs := inputs[0 := inputName];
      ghost var all := outputs;
      while |outputs| > 1
        invariant 1 <= |outputs| <= |all| && outputs == all[..|outputs|]
        invariant Contents() == WithInput(old(Contents()), inputName).(inputs := [inputName], outputs := outputs)
      {
        outputs := outputs[..|outputs| - 1];
      }
      RenameTensorValue(outputs[0], outputName);
      outputs := outputs[0 := outputName];
      done := true;
    }
  }

  method RenameIn(names: seq<string>, oldName: string, newName: string) returns (renamed: seq<string>)
    ensures renamed == Names(oldName, newName, names)
  {
    renamed := names;
    for i := 0 to |names|
      invariant |renamed| == |names|
      invariant forall k :: 0 <= k < |names| ==> renamed[k] == if k < i then Rho(oldName, newName, names[k]) else names[k]
    {
      if renamed[i] == oldName {
        renamed := renamed[i := newName];
      }
    }
  }

  method RenameNodes(nodes: seq<Node>, oldName: string, newName: string) returns (renamed: seq<Node>)
    ensures renamed == InNodes(oldName, newName, nodes)
  {
    renamed := nodes;
    for i := 0 to |nodes|
      invariant |renamed| == |nodes|
      invariant forall k :: 0 <= k < |nodes| ==> renamed[k] == if k < i then InNode(oldName, newName, nodes[k]) else nodes[k]
    {
      var ins := RenameIn(renamed[i].ins, oldName, newName);
      var outs := RenameIn(renamed[i].outs, oldName, newName);
      renamed := renamed[i := renamed[i].(ins := ins, outs := outs)];
    }
  }

  method RenameInits<V>(inits: seq<Init<V>>, oldName: string, newName: string) returns (renamed: seq<Init<V>>)
    ensures renamed == InInits(oldName, newName, inits)
  {
    renamed := inits;
    for i := 0 to |inits|
      invariant |renamed| == |inits|
      invariant forall k :: 0 <= k < |inits| ==>
                  renamed[k] == if k < i then inits[k].(name := Rho(oldName, newName, inits[k].name)) else inits[k]
    {
      if renamed[i].name == oldName {
        renamed := renamed[i := renamed[i].(name := newName)];
      }
    }
  }
}
