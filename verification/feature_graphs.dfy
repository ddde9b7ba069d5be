/** Which feature graphs are accepted, stated position by position. */
module FeatureGraphs {
  import opened Common
  import opened FeatureDsl

  predicate Yields(op: Operator, kind: Kind) {
    kind.Boolean? <==> op == GreaterEqual || op == LessEqual || op == AllOf || op == AnyOf
  }

  /** The kind an operator wants of each of its inputs. */
  predicate Wants(op: Operator, kind: Kind) { kind.Boolean? <==> op == AllOf || op == AnyOf }

  predicate TakesWindow(op: Operator) {
    op == RollingMean || op == RollingRatio || op == RobustZscore || op == PctChange
  }

  predicate TakesThreshold(op: Operator) { op == GreaterEqual || op == LessEqual }

  /** The right number of inputs, a known window exactly where one belongs, and exactly one of a known threshold and
      a constant exactly where one belongs. */
  predicate ShapeFits(node: Node, parameters: set<string>) {
    && (if node.op == Minimum || node.op == Maximum then |node.inputs| >= 2
        else if node.op == AllOf || node.op == AnyOf then |node.inputs| >= 1
        else |node.inputs| == 1)
    && (if TakesWindow(node.op) then node.window.Some? && node.window.value in parameters else node.window.None?)
    && (if TakesThreshold(node.op) then
          (node.constant.Some? && node.threshold.None?)
          || (node.constant.None? && node.threshold.Some? && node.threshold.value in parameters)
        else node.threshold.None? && node.constant.None?)
  }

  /** Before node i the name stands for a column of this kind: a source, or an earlier node. */
  ghost predicate HasKind(sources: seq<string>, nodes: seq<Node>, i: nat, name: string, kind: Kind)
    requires i <= |nodes|
  {
    (name in sources && kind.Numeric?) || exists j :: 0 <= j < i && nodes[j].id == name && Yields(nodes[j].op, kind)
  }

  ghost predicate NodeFits(sources: seq<string>, nodes: seq<Node>, i: nat, parameters: set<string>)
    requires i < |nodes|
  {
    && SafeId(nodes[i].id) && nodes[i].id !in sources && (forall j :: 0 <= j < i ==> nodes[j].id != nodes[i].id)
    && ShapeFits(nodes[i], parameters)
    && forall name :: name in nodes[i].inputs ==>
         exists kind :: HasKind(sources, nodes, i, name, kind) && Wants(nodes[i].op, kind)
  }

  ghost predicate NoneTwice(names: seq<string>) {
    forall i, j :: 0 <= i < j < |names| ==> names[i] != names[j]
  }

  ghost predicate GraphFits(sources: seq<string>, nodes: seq<Node>, signal: string, parameters: set<string>) {
    && sources != [] && (forall i :: 0 <= i < |sources| ==> SafeId(sources[i]))
    && NoneTwice(sources)
    && (forall i :: 0 <= i < |nodes| ==> NodeFits(sources, nodes, i, parameters))
    && HasKind(sources, nodes, |nodes|, signal, Boolean)
  }

  lemma ShapeIff(node: Node, parameters: set<string>)
    requires node.inputs != []
    ensures NodeError(node, parameters).None? <==> ShapeFits(node, parameters)
  {
  }

  lemma KindsAgree(op: Operator)
    ensures forall kind :: Yields(op, kind) <==> KindOf(op) == kind
    ensures forall kind :: Wants(op, kind) <==> InputKind(op) == kind
  {
  }

  lemma HasKindInPrefix(sources: seq<string>, nodes: seq<Node>, n: nat, i: nat, name: string, kind: Kind)
    requires i <= n <= |nodes|
    ensures HasKind(sources, nodes[..n], i, name, kind) <==> HasKind(sources, nodes, i, name, kind)
  {
    if j :| 0 <= j < i && nodes[j].id == name && Yields(nodes[j].op, kind) {
      assert nodes[..n][j] == nodes[j];
    }
    if j :| 0 <= j < i && nodes[..n][j].id == name && Yields(nodes[..n][j].op, kind) {
      assert nodes[..n][j] == nodes[j];
    }
  }

  lemma FitsInPrefix(sources: seq<string>, nodes: seq<Node>, n: nat, i: nat, parameters: set<string>)
    requires i < n <= |nodes|
    ensures NodeFits(sources, nodes[..n], i, parameters) <==> NodeFits(sources, nodes, i, parameters)
  {
    assert nodes[..n][i] == nodes[i];
    forall name, kind ensures HasKind(sources, nodes[..n], i, name, kind) <==> HasKind(sources, nodes, i, name, kind) {
      HasKindInPrefix(sources, nodes, n, i, name, kind);
    }
  }

  /** known says what HasKind says. */
  ghost predicate Knows(known: map<string, Kind>, sources: seq<string>, nodes: seq<Node>, i: nat)
    requires i <= |nodes|
  {
    forall name, kind :: name in known && known[name] == kind <==> HasKind(sources, nodes, i, name, kind)
  }

  lemma KnowsKeys(known: map<string, Kind>, sources: seq<string>, nodes: seq<Node>, i: nat, name: string)
    requires i <= |nodes| && Knows(known, sources, nodes, i)
    ensures name in known <==> name in sources || exists j :: 0 <= j < i && nodes[j].id == name
  {
    if name in known {
      assert HasKind(sources, nodes, i, name, known[name]);
    }
    if name in sources {
      assert HasKind(sources, nodes, i, name, Numeric);
    }
    if j :| 0 <= j < i && nodes[j].id == name {
      KindsAgree(nodes[j].op);
      assert HasKind(sources, nodes, i, name, KindOf(nodes[j].op));
    }
  }

  lemma DeclareIff(known: map<string, Kind>, sources: seq<string>, nodes: seq<Node>, i: nat, parameters: set<string>)
    requires i < |nodes| && Knows(known, sources, nodes, i)
    ensures Declare(known, nodes[i], parameters).Ok? <==> NodeFits(sources, nodes, i, parameters)
  {
    var node := nodes[i];
    KnowsKeys(known, sources, nodes, i, node.id);
    KindsAgree(node.op);
    if node.inputs != [] {
      ShapeIff(node, parameters);
    }
    forall name | name in node.inputs
      ensures (name in known && known[name] == InputKind(node.op))
         <==> exists kind :: HasKind(sources, nodes, i, name, kind) && Wants(node.op, kind)
    {
      if name in known && known[name] == InputKind(node.op) {
        assert HasKind(sources, nodes, i, name, InputKind(node.op));
      }
    }
  }

  lemma DeclareKnows(known: map<string, Kind>, sources: seq<string>, nodes: seq<Node>, i: nat, parameters: set<string>)
    requires i < |nodes| && Knows(known, sources, nodes, i) && Declare(known, nodes[i], parameters).Ok?
    ensures Knows(Declare(known, nodes[i], parameters).value, sources, nodes, i + 1)
  {
    var node := nodes[i];
    var known' := Declare(known, node, parameters).value;
    KindsAgree(node.op);
    KnowsKeys(known, sources, nodes, i, node.id);
    var n := i + 1;
    forall name, kind ensures name in known' && known'[name] == kind <==> HasKind(sources, nodes, n, name, kind) {
      if name == node.id {
        assert HasKind(sources, nodes, n, name, kind) <==> Yields(node.op, kind);
      } else {
        assert HasKind(sources, nodes, n, name, kind) <==> HasKind(sources, nodes, i, name, kind);
      }
    }
  }

  lemma {:induction false} DeclaredIff(sources: seq<string>, nodes: seq<Node>, parameters: set<string>)
    ensures var r := Declared(SourceKinds(set name | name in sources), nodes, parameters);
            && (r.Ok? <==> forall i :: 0 <= i < |nodes| ==> NodeFits(sources, nodes, i, parameters))
            && (r.Ok? ==> Knows(r.value, sources, nodes, |nodes|))
  {
    if nodes != [] {
      var n := |nodes| - 1;
      DeclaredIff(sources, nodes[..n], parameters);
      forall i | 0 <= i < n
        ensures NodeFits(sources, nodes[..n], i, parameters) <==> NodeFits(sources, nodes, i, parameters)
      {
        FitsInPrefix(sources, nodes, n, i, parameters);
      }
      var front := Declared(SourceKinds(set name | name in sources), nodes[..n], parameters);
      if front.Ok? {
        forall name, kind
          ensures HasKind(sources, nodes[..n], n, name, kind) <==> HasKind(sources, nodes, n, name, kind)
        {
          HasKindInPrefix(sources, nodes, n, n, name, kind);
        }
        DeclareIff(front.value, sources, nodes, n, parameters);
        if Declare(front.value, nodes[n], parameters).Ok? {
          DeclareKnows(front.value, sources, nodes, n, parameters);
        }
      }
    }
  }

  lemma NoneTwiceGrows(names: seq<string>)
    requires names != []
    ensures var front, last := names[..|names| - 1], names[|names| - 1];
            NoneTwice(names) <==> NoneTwice(front) && last !in front
  {
    var front, last := names[..|names| - 1], names[|names| - 1];
    if NoneTwice(front) && last !in front {
      forall i, j | 0 <= i < j < |names| ensures names[i] != names[j] {
        assert front[i] in front;
      }
    }
  }

  lemma NamesGrow(names: seq<string>)
    requires names != []
    ensures var front := names[..|names| - 1];
            (set name | name in names) == (set name | name in front) + {names[|names| - 1]}
  {
    assert names == names[..|names| - 1] + [names[|names| - 1]];
  }

  lemma {:induction false} DistinctIff(names: seq<string>)
    ensures |set name | name in names| <= |names|
    ensures |set name | name in names| == |names| <==> NoneTwice(names)
  {
    if names != [] {
      var front, last := names[..|names| - 1], names[|names| - 1];
      DistinctIff(front);
      NamesGrow(names);
      NoneTwiceGrows(names);
      if last in front {
        assert (set name | name in names) == set name | name in front;
      }
    }
  }

  /** A graph is accepted exactly when its sources are safe and distinct, every node has a fresh safe id, a fitting
      shape and earlier inputs of the kind its operator wants, and the signal is a Boolean node; it is then
      compiled as it stands. */
  lemma CompilesIff(sources: seq<string>, nodes: seq<Node>, signal: string, parameters: set<string>)
    ensures var r := Compiled(sources, nodes, signal, parameters);
            && (r.Ok? <==> GraphFits(sources, nodes, signal, parameters))
            && (r.Ok? ==> r.value.nodes == nodes && r.value.signal == signal
                          && forall name :: name in r.value.sources <==> name in sources)
  {
    DistinctIff(sources);
    DeclaredIff(sources, nodes, parameters);
  }

  // ---------- why a graph is refused ----------

  /** Before node i the name stands for a column. */
  ghost predicate Stands(sources: seq<string>, nodes: seq<Node>, i: nat, name: string)
    requires i <= |nodes|
  {
    name in sources || exists j :: 0 <= j < i && nodes[j].id == name
  }

  function ShapeFault(node: Node, parameters: set<string>): SpecError {
    if (if node.op == Minimum || node.op == Maximum then |node.inputs| < 2
        else if node.op == AllOf || node.op == AnyOf then node.inputs == []
        else |node.inputs| != 1) then WrongArity
    else if (if TakesWindow(node.op) then node.window.None? || node.window.value !in parameters
             else node.window.Some?) then BadWindow
    else BadThreshold
  }

  /** What is wrong with a node that does not fit: first its id, then its inputs, its shape, and their kinds. */
  ghost function NodeFault(sources: seq<string>, nodes: seq<Node>, i: nat, parameters: set<string>): SpecError
    requires i < |nodes|
  {
    if !SafeId(nodes[i].id) || Stands(sources, nodes, i, nodes[i].id) then BadFeatureId
    else if nodes[i].inputs == [] || exists name :: name in nodes[i].inputs && !Stands(sources, nodes, i, name) then
      UnknownInput
    else if !ShapeFits(nodes[i], parameters) then ShapeFault(nodes[i], parameters)
    else WrongInputKind
  }

  lemma ShapeFaultIs(node: Node, parameters: set<string>)
    requires node.inputs != [] && !ShapeFits(node, parameters)
    ensures NodeError(node, parameters) == Some(ShapeFault(node, parameters))
  {
  }

  lemma DeclareFails(known: map<string, Kind>, sources: seq<string>, nodes: seq<Node>, i: nat, parameters: set<string>)
    requires i < |nodes| && Knows(known, sources, nodes, i) && !NodeFits(sources, nodes, i, parameters)
    ensures Declare(known, nodes[i], parameters) == Err(NodeFault(sources, nodes, i, parameters))
  {
    var node := nodes[i];
    DeclareIff(known, sources, nodes, i, parameters);
    forall name ensures name in known <==> Stands(sources, nodes, i, name) {
      KnowsKeys(known, sources, nodes, i, name);
    }
    if node.inputs != [] {
      ShapeIff(node, parameters);
      if !ShapeFits(node, parameters) {
        ShapeFaultIs(node, parameters);
      }
    }
  }

  lemma NodesUpToFit(sources: seq<string>, nodes: seq<Node>, i: nat, parameters: set<string>)
    requires i <= |nodes| && forall j :: 0 <= j < i ==> NodeFits(sources, nodes, j, parameters)
    ensures var r := Declared(SourceKinds(set name | name in sources), nodes[..i], parameters);
            r.Ok? && Knows(r.value, sources, nodes, i)
  {
    DeclaredIff(sources, nodes[..i], parameters);
    forall j | 0 <= j < i ensures NodeFits(sources, nodes[..i], j, parameters) {
      FitsInPrefix(sources, nodes, i, j, parameters);
    }
    forall name, kind ensures HasKind(sources, nodes[..i], i, name, kind) <==> HasKind(sources, nodes, i, name, kind) {
      HasKindInPrefix(sources, nodes, i, i, name, kind);
    }
  }

  ghost predicate IsFirstUnfit(sources: seq<string>, nodes: seq<Node>, i: nat, parameters: set<string>)
    requires i < |nodes|
  {
    !NodeFits(sources, nodes, i, parameters) && forall j :: 0 <= j < i ==> NodeFits(sources, nodes, j, parameters)
  }

  /** Among nodes the first that does not fit decides the error. */
  lemma FirstFaultDecides(sources: seq<string>, nodes: seq<Node>, i: nat, parameters: set<string>)
    requires i < |nodes| && IsFirstUnfit(sources, nodes, i, parameters)
    ensures Declared(SourceKinds(set name | name in sources), nodes, parameters)
         == Err(NodeFault(sources, nodes, i, parameters))
  {
    var types := SourceKinds(set name | name in sources);
    NodesUpToFit(sources, nodes, i, parameters);
    var n := i + 1;
    assert nodes[..n][..i] == nodes[..i] && nodes[..n][i] == nodes[i];
    DeclareFails(Declared(types, nodes[..i], parameters).value, sources, nodes, i, parameters);
    DeclaredErrorSticks(types, nodes, n, parameters);
  }

  /** The error of a refused graph: of its sources, else of its first node that does not fit, else of its signal. */
  lemma RefusalNamesTheFault(sources: seq<string>, nodes: seq<Node>, signal: string, parameters: set<string>)
    ensures var r := Compiled(sources, nodes, signal, parameters);
            if sources == [] || exists i :: 0 <= i < |sources| && !SafeId(sources[i]) then r == Err(UnsafeSources)
            else if !NoneTwice(sources) then r == Err(RepeatedSource)
            else
              && (forall i :: 0 <= i < |nodes| && IsFirstUnfit(sources, nodes, i, parameters) ==>
                    r == Err(NodeFault(sources, nodes, i, parameters)))
              && ((forall i :: 0 <= i < |nodes| ==> NodeFits(sources, nodes, i, parameters)) ==>
                    && (r == Err(UnknownSignal) <==> !Stands(sources, nodes, |nodes|, signal))
                    && (r == Err(SignalNotBoolean) <==>
                         Stands(sources, nodes, |nodes|, signal) && !HasKind(sources, nodes, |nodes|, signal, Boolean)))
  {
    DistinctIff(sources);
    DeclaredIff(sources, nodes, parameters);
    forall i | 0 <= i < |nodes| && IsFirstUnfit(sources, nodes, i, parameters)
      ensures Declared(SourceKinds(set name | name in sources), nodes, parameters)
           == Err(NodeFault(sources, nodes, i, parameters))
    {
      FirstFaultDecides(sources, nodes, i, parameters);
    }
    var r := Declared(SourceKinds(set name | name in sources), nodes, parameters);
    if r.Ok? {
      KnowsKeys(r.value, sources, nodes, |nodes|, signal);
    }
  }

  /** The error of a node that cannot be evaluated: an input is missing, else the parameter it names, else its window is
      no whole number of candles. */
  lemma EvaluationFault(values: Values, node: Node, env: Env, size: nat)
    requires env.minutes >= 1 && AllOfSize(values, size)
    ensures var r := NodeValue(values, node, env, size);
            var missing := node.inputs == [] || exists name :: name in node.inputs && name !in values;
            && (r == Err(UnknownColumn) <==> missing)
            && (r == Err(MisalignedWindow) <==>
                  && !missing && TakesWindow(node.op) && node.window.Some? && node.window.value in env.parameters
                  && WindowBars(env.parameters[node.window.value], env.minutes).None?)
            && (r.Err? ==> r.error == UnknownColumn || r.error == MisalignedWindow || r.error == MissingParameter)
  {
  }

  // ---------- what an evaluation satisfies ----------

  ghost predicate FreshIds(values: Values, nodes: seq<Node>) {
    && (forall i :: 0 <= i < |nodes| ==> nodes[i].id !in values)
    && forall i, j :: 0 <= i < j < |nodes| ==> nodes[i].id != nodes[j].id
  }

  /** The node's equation: every row of its column is its operator applied to the same row of its input columns. */
  ghost predicate EquationHolds(values: Values, node: Node, env: Env, size: nat)
    requires env.minutes >= 1 && AllOfSize(values, size)
  {
    && node.id in values && node.inputs != [] && (forall name :: name in node.inputs ==> name in values)
    && var setting := SettingOf(node, env.parameters, env.minutes);
       && setting.Ok?
       && forall row: nat :: row < size ==>
            values[node.id][row] == RowValue(node.op, setting.value, env.log1p, InputsOf(values, node.inputs), row)
  }

  lemma EquationSurvives(values: Values, node: Node, env: Env, size: nat, id: string, column: Column)
    requires env.minutes >= 1 && AllOfSize(values, size) && |column| == size
    requires EquationHolds(values, node, env, size) && id !in values
    ensures EquationHolds(values[id := column], node, env, size)
  {
    assert InputsOf(values[id := column], node.inputs) == InputsOf(values, node.inputs);
  }

  lemma NewEquationHolds(values: Values, node: Node, env: Env, size: nat)
    requires env.minutes >= 1 && AllOfSize(values, size) && NodeValue(values, node, env, size).Ok? && node.id !in values
    ensures EquationHolds(values[node.id := NodeValue(values, node, env, size).value], node, env, size)
  {
    var after := values[node.id := NodeValue(values, node, env, size).value];
    assert InputsOf(after, node.inputs) == InputsOf(values, node.inputs);
  }

  /** The values extend the given ones by one column for each node. */
  ghost predicate Extends(values: Values, nodes: seq<Node>, result: Values) {
    && (forall name :: name in values ==> name in result && result[name] == values[name])
    && (forall name :: name in result ==> name in values || exists i :: 0 <= i < |nodes| && nodes[i].id == name)
  }

  lemma {:induction false} EvaluationExtends(values: Values, nodes: seq<Node>, env: Env, size: nat)
    requires env.minutes >= 1 && AllOfSize(values, size) && FreshIds(values, nodes)
    requires NodeValues(values, nodes, env, size).Ok?
    ensures Extends(values, nodes, NodeValues(values, nodes, env, size).value)
  {
    if nodes != [] {
      var n := |nodes| - 1;
      var front := nodes[..n];
      EvaluationExtends(values, front, env, size);
      var result := NodeValues(values, nodes, env, size).value;
      forall name | name in result ensures name in values || exists i :: 0 <= i < |nodes| && nodes[i].id == name {
        if name == nodes[n].id {
        } else if name !in values {
          var i :| 0 <= i < |front| && front[i].id == name;
          assert nodes[i].id == name;
        }
      }
    }
  }

  /** One more node: the equations of the earlier nodes survive, and its own holds. */
  lemma NodeKeepsEquations(before: Values, nodes: seq<Node>, n: nat, i: nat, env: Env, size: nat)
    requires env.minutes >= 1 && AllOfSize(before, size) && i <= n < |nodes| && nodes[n].id !in before
    requires NodeValue(before, nodes[n], env, size).Ok? && (i < n ==> EquationHolds(before, nodes[i], env, size))
    ensures var after := before[nodes[n].id := NodeValue(before, nodes[n], env, size).value];
            AllOfSize(after, size) && EquationHolds(after, nodes[i], env, size)
  {
    if i == n {
      NewEquationHolds(before, nodes[n], env, size);
    } else {
      EquationSurvives(before, nodes[i], env, size, nodes[n].id, NodeValue(before, nodes[n], env, size).value);
    }
  }

  lemma FreshAfterFront(values: Values, nodes: seq<Node>, env: Env, size: nat)
    requires env.minutes >= 1 && AllOfSize(values, size) && FreshIds(values, nodes) && nodes != []
    requires NodeValues(values, nodes[..|nodes| - 1], env, size).Ok?
    ensures nodes[|nodes| - 1].id !in NodeValues(values, nodes[..|nodes| - 1], env, size).value
  {
    EvaluationExtends(values, nodes[..|nodes| - 1], env, size);
  }

  /** With fresh distinct ids, as every accepted graph has them, the values returned satisfy the equation of every
      node at once. */
  lemma {:induction false} EvaluationSolves(values: Values, nodes: seq<Node>, env: Env, size: nat, i: nat)
    requires env.minutes >= 1 && AllOfSize(values, size) && FreshIds(values, nodes)
    requires NodeValues(values, nodes, env, size).Ok? && i < |nodes|
    ensures EquationHolds(NodeValues(values, nodes, env, size).value, nodes[i], env, size)
  {
    var n := |nodes| - 1;
    var front := nodes[..n];
    FreshAfterFront(values, nodes, env, size);
    if i < n {
      EvaluationSolves(values, front, env, size, i);
    }
    NodeKeepsEquations(NodeValues(values, front, env, size).value, nodes, n, i, env, size);
  }

  lemma FittingIdsAreFresh(
      sources: seq<string>, nodes: seq<Node>, signal: string, parameters: set<string>, values: Values)
    requires GraphFits(sources, nodes, signal, parameters) && forall name :: name in values ==> name in sources
    ensures FreshIds(values, nodes)
  {
    forall i | 0 <= i < |nodes|
      ensures nodes[i].id !in sources && forall j :: 0 <= j < i ==> nodes[j].id != nodes[i].id
    {
      assert NodeFits(sources, nodes, i, parameters);
    }
  }

  /** What an accepted graph evaluates to: the given source columns, and one column for each node, every row of which
      is the node's operator applied to the same row of the columns it names. */
  lemma AcceptedGraphSolves(
      sources: seq<string>, nodes: seq<Node>, signal: string, parameters: set<string>, columns: Values, env: Env)
    requires env.minutes >= 1 && Compiled(sources, nodes, signal, parameters).Ok?
    requires Evaluated(Compiled(sources, nodes, signal, parameters).value, columns, env).Ok?
    ensures var g := Compiled(sources, nodes, signal, parameters).value;
            var result := Evaluated(g, columns, env).value;
            && EquallySized(columns) && AllOfSize(result, SizeOf(columns))
            && Extends(Sources(columns, g.sources), nodes, result)
            && forall i :: 0 <= i < |nodes| ==> EquationHolds(result, nodes[i], env, SizeOf(columns))
  {
    var g := Compiled(sources, nodes, signal, parameters).value;
    var given := Sources(columns, g.sources);
    CompilesIff(sources, nodes, signal, parameters);
    FittingIdsAreFresh(sources, nodes, signal, parameters, given);
    EvaluationExtends(given, nodes, env, SizeOf(columns));
    forall i | 0 <= i < |nodes|
      ensures EquationHolds(NodeValues(given, nodes, env, SizeOf(columns)).value, nodes[i], env, SizeOf(columns))
    {
      EvaluationSolves(given, nodes, env, SizeOf(columns), i);
    }
  }
}
