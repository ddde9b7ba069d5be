/** Numbers, windows and order statistics used by the feature operators. */
module Statistics {
  import opened Common

  function Sum(xs: seq<real>): real {
    if xs == [] then 0.0 else Sum(xs[..|xs| - 1]) + xs[|xs| - 1]
  }

  function Smallest(xs: seq<real>): real
    requires xs != []
  {
    if |xs| == 1 then xs[0]
    else var m := Smallest(xs[..|xs| - 1]); if xs[|xs| - 1] < m then xs[|xs| - 1] else m
  }

  function Largest(xs: seq<real>): real
    requires xs != []
  {
    if |xs| == 1 then xs[0]
    else var m := Largest(xs[..|xs| - 1]); if xs[|xs| - 1] > m then xs[|xs| - 1] else m
  }

  lemma {:induction false} LargestIsAttained(xs: seq<real>)
    requires xs != []
    ensures Largest(xs) in xs && forall i :: 0 <= i < |xs| ==> xs[i] <= Largest(xs)
  {
    if |xs| > 1 {
      LargestIsAttained(xs[..|xs| - 1]);
    }
  }

  lemma {:induction false} SmallestIsAttained(xs: seq<real>)
    requires xs != []
    ensures Smallest(xs) in xs && forall i :: 0 <= i < |xs| ==> Smallest(xs) <= xs[i]
  {
    if |xs| > 1 {
      SmallestIsAttained(xs[..|xs| - 1]);
    }
  }

  function AbsR(x: real): real { if x < 0.0 then -x else x }

  function Insert(x: real, xs: seq<real>): seq<real> {
    if xs == [] || x <= xs[0] then [x] + xs else [xs[0]] + Insert(x, xs[1..])
  }

  function Sorted(xs: seq<real>): (r: seq<real>)
    ensures |r| == |xs|
  {
    if xs == [] then [] else InsertLength(xs[0], Sorted(xs[1..])); Insert(xs[0], Sorted(xs[1..]))
  }

  lemma {:induction false} InsertLength(x: real, xs: seq<real>)
    ensures |Insert(x, xs)| == |xs| + 1
  {
    if xs == [] || x <= xs[0] {
    } else {
      InsertLength(x, xs[1..]);
    }
  }

  /** The middle of an ascending sequence: its centre, or the mean of its two centres. */
  function Middle(ordered: seq<real>): real
    requires ordered != []
  {
    var n := |ordered|;
    if n % 2 == 1 then ordered[n / 2] else (ordered[n / 2 - 1] + ordered[n / 2]) / 2.0
  }

  function Median(xs: seq<real>): real
    requires xs != []
  {
    Middle(Sorted(xs))
  }

  function Deviations(xs: seq<real>, centre: real): seq<real> {
    seq(|xs|, i requires 0 <= i < |xs| => AbsR(xs[i] - centre))
  }

  /** Median absolute deviation. */
  function Mad(xs: seq<real>): real
    requires xs != []
  {
    Median(Deviations(xs, Median(xs)))
  }

  const MAD_SCALE := 1.4826

  function ScoreAgainst(current: real, median: real, mad: real): Option<real> {
    if mad == 0.0 then None else Some((current - median) / (MAD_SCALE * mad))
  }

  function RobustZ(xs: seq<real>, current: real): Option<real>
    requires xs != []
  {
    ScoreAgainst(current, Median(xs), Mad(xs))
  }
}

/** The feature language: graphs of typed columns, checked once and evaluated row by row. */
module FeatureDsl {
  import opened Common
  import opened Statistics

  /** A float (finite or not), a Boolean, or no value. */
  datatype Scalar = Num(v: real) | NonFinite | Flag(b: bool) | Missing

  type Column = seq<Scalar>

  type Values = map<string, Column>

  datatype Operator =
    | RollingMean | RollingRatio | RobustZscore | PctChange | Minimum | Maximum
    | GreaterEqual | LessEqual | AllOf | AnyOf | Absolute | Log1p
  {
    predicate Windowed() { RollingMean? || RollingRatio? || RobustZscore? || PctChange? }
    predicate Comparison() { GreaterEqual? || LessEqual? }
    predicate Logical() { AllOf? || AnyOf? }
    predicate Unary() { Windowed() || Comparison() || Absolute? || Log1p? }
  }

  datatype Node = Node(
    id: string, op: Operator, inputs: seq<string>,
    window: Option<string>, threshold: Option<string>, constant: Option<real>)

  datatype Graph = Graph(sources: set<string>, nodes: seq<Node>, signal: string)

  datatype Kind = Numeric | Boolean

  datatype SpecError =
    | UnsafeSources | RepeatedSource | BadFeatureId | UnknownInput | WrongArity | BadWindow | BadThreshold
    | WrongInputKind | UnknownSignal | SignalNotBoolean

  datatype EvalError = UnevenColumns | MissingSource | UnknownColumn | MissingParameter | MisalignedWindow

  // ---------- compiling ----------

  predicate SafeStart(c: char) { 'a' <= c <= 'z' || '0' <= c <= '9' }

  predicate SafeId(s: string) {
    && 2 <= |s| <= 64 && SafeStart(s[0])
    && forall i :: 1 <= i < |s| ==> SafeStart(s[i]) || s[i] == '.' || s[i] == '_' || s[i] == '-'
  }

  function NodeError(node: Node, parameters: set<string>): Option<SpecError> {
    if node.op.Unary() && |node.inputs| != 1 then Some(WrongArity)
    else if (node.op.Minimum? || node.op.Maximum?) && |node.inputs| < 2 then Some(WrongArity)
    else if node.op.Logical() && |node.inputs| < 1 then Some(WrongArity)
    else if node.op.Windowed() && (node.window.None? || node.window.value !in parameters) then Some(BadWindow)
    else if !node.op.Windowed() && node.window.Some? then Some(BadWindow)
    else if node.op.Comparison() && (node.threshold.Some? <==> node.constant.Some?) then Some(BadThreshold)
    else if node.op.Comparison() && node.threshold.Some? && node.threshold.value !in parameters then Some(BadThreshold)
    else if !node.op.Comparison() && (node.threshold.Some? || node.constant.Some?) then Some(BadThreshold)
    else None
  }

  function KindOf(op: Operator): Kind {
    if op.Comparison() || op.Logical() then Boolean else Numeric
  }

  function InputKind(op: Operator): Kind {
    if op.Logical() then Boolean else Numeric
  }

  function Declare(known: map<string, Kind>, node: Node, parameters: set<string>):
    Result<map<string, Kind>, SpecError>
  {
    if !SafeId(node.id) || node.id in known then Err(BadFeatureId)
    else if node.inputs == [] || exists name :: name in node.inputs && name !in known then Err(UnknownInput)
    else if NodeError(node, parameters).Some? then Err(NodeError(node, parameters).value)
    else if exists name :: name in node.inputs && known[name] != InputKind(node.op) then Err(WrongInputKind)
    else Ok(known[node.id := KindOf(node.op)])
  }

  /** The kinds of all columns once the nodes are declared, in order. */
  function Declared(types: map<string, Kind>, nodes: seq<Node>, parameters: set<string>):
    Result<map<string, Kind>, SpecError>
  {
    if nodes == [] then Ok(types)
    else
      var n := |nodes| - 1;
      match Declared(types, nodes[..n], parameters)
      case Err(e) => Err(e)
      case Ok(known) =>
        Declare(known, nodes[n], parameters)
  }

  function SourceKinds(sources: set<string>): map<string, Kind> {
    map name | name in sources :: Numeric
  }

  function Compiled(sources: seq<string>, nodes: seq<Node>, signal: string, parameters: set<string>):
    Result<Graph, SpecError>
  {
    var names := set name | name in sources;
    if sources == [] || exists name :: name in sources && !SafeId(name) then Err(UnsafeSources)
    else if |names| != |sources| then Err(RepeatedSource)
    else
      match Declared(SourceKinds(names), nodes, parameters)
      case Err(e) => Err(e)
      case Ok(known) =>
        if signal !in known then Err(UnknownSignal)
        else if known[signal] != Boolean then Err(SignalNotBoolean)
        else Ok(Graph(names, nodes, signal))
  }

  method CompileFeatureGraph(sources: seq<string>, nodes: seq<Node>, signal: string, parameters: set<string>)
    returns (r: Result<Graph, SpecError>)
    ensures r == Compiled(sources, nodes, signal, parameters)
  {
    var names := set name | name in sources;
    if sources == [] || exists name :: name in sources && !SafeId(name) {
      return Err(UnsafeSources);
    }
    if |names| != |sources| {
      return Err(RepeatedSource);
    }
    var available := SourceKinds(names);
    for i := 0 to |nodes|
      invariant Declared(SourceKinds(names), nodes[..i], parameters) == Ok(available)
    {
      var node := nodes[i];
      assert nodes[..i + 1][..i] == nodes[..i];
      assert Declared(SourceKinds(names), nodes[..i + 1], parameters) == Declare(available, node, parameters);
      DeclaredErrorSticks(SourceKinds(names), nodes, i + 1, parameters);
      if !SafeId(node.id) || node.id in available {
        return Err(BadFeatureId);
      }
      if node.inputs == [] || exists name :: name in node.inputs && name !in available {
        return Err(UnknownInput);
      }
      var invalid := NodeError(node, parameters);
      if invalid.Some? {
        return Err(invalid.value);
      }
      if exists name :: name in node.inputs && available[name] != InputKind(node.op) {
        return Err(WrongInputKind);
      }
      available := available[node.id := KindOf(node.op)];
    }
    assert nodes[..|nodes|] == nodes;
    if signal !in available {
      return Err(UnknownSignal);
    }
    if available[signal] != Boolean {
      return Err(SignalNotBoolean);
    }
    return Ok(Graph(names, nodes, signal));
  }

  lemma {:induction false} DeclaredErrorSticks(
      types: map<string, Kind>, nodes: seq<Node>, n: nat, parameters: set<string>)
    requires n <= |nodes|
    ensures var r := Declared(types, nodes[..n], parameters); r.Err? ==> Declared(types, nodes, parameters) == r
    decreases |nodes|
  {
    if n == |nodes| {
      assert nodes[..n] == nodes;
    } else {
      assert nodes[..|nodes| - 1][..n] == nodes[..n];
      DeclaredErrorSticks(types, nodes[..|nodes| - 1], n, parameters);
    }
  }

  // ---------- one row of one node ----------

  function NumericOf(x: Scalar): Option<real> {
    if x.Num? then Some(x.v) else None
  }

  predicate Truthy(x: Scalar) {
    match x
    case Num(v) => v != 0.0
    case NonFinite => true
    case Flag(b) => b
    case Missing => false
  }

  /** A Boolean that holds, a number other than zero, or a float that is not finite. */
  predicate IsOn(x: Scalar) {
    x == Flag(true) || (x.Num? && x.v != 0.0) || x == NonFinite
  }

  predicate AllNumeric(xs: seq<Scalar>) { forall i :: 0 <= i < |xs| ==> xs[i].Num? }

  function Numbers(xs: seq<Scalar>): seq<real>
    requires AllNumeric(xs)
  {
    seq(|xs|, i requires 0 <= i < |xs| => xs[i].v)
  }

  function OfOption(x: Option<real>): Scalar { if x.Some? then Num(x.value) else Missing }

  function Rolled(op: Operator, clean: seq<real>, current: Option<real>): Scalar
    requires op.Windowed() && clean != []
  {
    var mean := Sum(clean) / |clean| as real;
    match op
    case PctChange => if current.None? || clean[0] == 0.0 then Missing else Num((current.value - clean[0]) / clean[0])
    case RollingMean => Num(mean)
    case RollingRatio => if current.None? || mean == 0.0 then Missing else Num(current.value / mean)
    case _ => if current.None? then Missing else OfOption(RobustZ(clean, current.value))
  }

  /** A rolling operator at row i looks at the `bars` rows before it, and at row i itself. */
  function WindowedAt(op: Operator, source: Column, bars: nat, i: nat): Scalar
    requires op.Windowed() && bars >= 1 && i < |source|
  {
    if i < bars || !AllNumeric(source[i - bars..i]) then Missing
    else Rolled(op, Numbers(source[i - bars..i]), NumericOf(source[i]))
  }

  function Row(inputs: seq<Column>, i: nat): seq<Scalar>
    requires forall k :: 0 <= k < |inputs| ==> i < |inputs[k]|
  {
    seq(|inputs|, k requires 0 <= k < |inputs| => inputs[k][i])
  }

  /** What a node's parameters resolve to. */
  datatype Setting = Setting(bars: nat, threshold: real)

  function RowValue(op: Operator, setting: Setting, log1p: real -> real, inputs: seq<Column>, i: nat): Scalar
    requires inputs != [] && (op.Windowed() ==> setting.bars >= 1)
    requires forall k :: 0 <= k < |inputs| ==> i < |inputs[k]|
  {
    var row := Row(inputs, i);
    var x := NumericOf(row[0]);
    match op
    case GreaterEqual => Flag(x.Some? && x.value >= setting.threshold)
    case LessEqual => Flag(x.Some? && x.value <= setting.threshold)
    case Absolute => if x.None? then Missing else Num(AbsR(x.value))
    case Log1p => if x.None? || x.value < 0.0 then Missing else Num(log1p(x.value))
    case Minimum => if AllNumeric(row) then Num(Smallest(Numbers(row))) else Missing
    case Maximum => if AllNumeric(row) then Num(Largest(Numbers(row))) else Missing
    case AllOf => Flag(forall k :: 0 <= k < |row| ==> Truthy(row[k]))
    case AnyOf => Flag(exists k :: 0 <= k < |row| && Truthy(row[k]))
    case _ => WindowedAt(op, inputs[0], setting.bars, i)
  }

  predicate Rectangular(inputs: seq<Column>, size: nat) {
    forall k :: 0 <= k < |inputs| ==> |inputs[k]| == size
  }

  function NodeColumn(op: Operator, setting: Setting, log1p: real -> real, inputs: seq<Column>, size: nat): Column
    requires inputs != [] && Rectangular(inputs, size) && (op.Windowed() ==> setting.bars >= 1)
  {
    seq(size, i requires 0 <= i < size => RowValue(op, setting, log1p, inputs, i))
  }

  // ---------- parameters ----------

  /** Python's round: to the nearest integer, ties to even. */
  function RoundHalfEven(x: real): int {
    var f := x.Floor;
    var rest := x - f as real;
    if rest < 0.5 || (rest == 0.5 && f % 2 == 0) then f else f + 1
  }

  predicate IsClose(a: real, b: real) {
    var larger := if AbsR(a) < AbsR(b) then AbsR(b) else AbsR(a);
    AbsR(a - b) <= 0.000000001 * larger || AbsR(a - b) <= 0.000000001
  }

  function WindowBars(hours: real, minutes: nat): Option<nat>
    requires minutes >= 1
  {
    var raw := hours * 60.0 / minutes as real;
    var bars := RoundHalfEven(raw);
    if hours <= 0.0 || bars < 1 || !IsClose(raw, bars as real) then None else Some(bars)
  }

  function SettingOf(node: Node, parameters: map<string, real>, minutes: nat): Result<Setting, EvalError>
    requires minutes >= 1
  {
    if node.op.Windowed() then
      if node.window.None? || node.window.value !in parameters then Err(MissingParameter)
      else
        var bars := WindowBars(parameters[node.window.value], minutes);
        if bars.None? then Err(MisalignedWindow) else Ok(Setting(bars.value, 0.0))
    else if node.op.Comparison() then
      if node.threshold.Some? then
        if node.threshold.value in parameters then Ok(Setting(0, parameters[node.threshold.value]))
        else Err(MissingParameter)
      else if node.constant.Some? then Ok(Setting(0, node.constant.value)) else Err(MissingParameter)
    else Ok(Setting(0, 0.0))
  }

  // ---------- evaluating a graph ----------

  /** Everything outside the columns that a graph's meaning depends on. */
  datatype Env = Env(parameters: map<string, real>, minutes: nat, log1p: real -> real)

  predicate AllOfSize(values: Values, size: nat) {
    forall name :: name in values ==> |values[name]| == size
  }

  function InputsOf(values: Values, names: seq<string>): seq<Column>
    requires forall name :: name in names ==> name in values
  {
    seq(|names|, k requires 0 <= k < |names| => values[names[k]])
  }

  function NodeValue(values: Values, node: Node, env: Env, size: nat): Result<Column, EvalError>
    requires env.minutes >= 1 && AllOfSize(values, size)
  {
    if node.inputs == [] || exists name :: name in node.inputs && name !in values then Err(UnknownColumn)
    else
      match SettingOf(node, env.parameters, env.minutes)
      case Err(e) => Err(e)
      case Ok(setting) => Ok(NodeColumn(node.op, setting, env.log1p, InputsOf(values, node.inputs), size))
  }

  /** The values after evaluating the nodes in order, or the first error. */
  function NodeValues(values: Values, nodes: seq<Node>, env: Env, size: nat): (r: Result<Values, EvalError>)
    requires env.minutes >= 1 && AllOfSize(values, size)
    ensures r.Ok? ==> AllOfSize(r.value, size)
  {
    if nodes == [] then Ok(values)
    else
      match NodeValues(values, nodes[..|nodes| - 1], env, size)
      case Err(e) => Err(e)
      case Ok(before) =>
        match NodeValue(before, nodes[|nodes| - 1], env, size)
        case Err(e) => Err(e)
        case Ok(column) => Ok(before[nodes[|nodes| - 1].id := column])
  }

  predicate EquallySized(columns: Values) {
    columns != map[] && forall a, b :: a in columns && b in columns ==> |columns[a]| == |columns[b]|
  }

  ghost function SizeOf(columns: Values): nat
    requires EquallySized(columns)
  {
    |columns[Pick(columns.Keys)]|
  }

  function Sources(columns: Values, sources: set<string>): Values {
    map name | name in columns && name in sources :: columns[name]
  }

  ghost function Evaluated(g: Graph, columns: Values, env: Env): Result<Values, EvalError>
    requires env.minutes >= 1
  {
    if !EquallySized(columns) then Err(UnevenColumns)
    else if !(g.sources <= columns.Keys) then Err(MissingSource)
    else NodeValues(Sources(columns, g.sources), g.nodes, env, SizeOf(columns))
  }

  method Evaluate(g: Graph, columns: Values, env: Env) returns (r: Result<Values, EvalError>)
    requires env.minutes >= 1
    ensures r == Evaluated(g, columns, env)
  {
    if !EquallySized(columns) {
      return Err(UnevenColumns);
    }
    if !(g.sources <= columns.Keys) {
      return Err(MissingSource);
    }
    var name :| name in columns;
    r := EvaluateNodes(Sources(columns, g.sources), g.nodes, env, |columns[name]|);
  }

  method EvaluateNodes(sources: Values, nodes: seq<Node>, env: Env, size: nat) returns (r: Result<Values, EvalError>)
    requires env.minutes >= 1 && AllOfSize(sources, size)
    ensures r == NodeValues(sources, nodes, env, size)
  {
    var values := sources;
    for i := 0 to |nodes|
      invariant NodeValues(sources, nodes[..i], env, size) == Ok(values)
    {
      var node := nodes[i];
      assert nodes[..i + 1][..i] == nodes[..i];
      EvalErrorSticks(sources, nodes, i + 1, env, size);
      if node.inputs == [] || exists name :: name in node.inputs && name !in values {
        return Err(UnknownColumn);
      }
      var column := EvaluateNode(node, InputsOf(values, node.inputs), env, size);
      if column.Err? {
        return Err(column.error);
      }
      values := values[node.id := column.value];
    }
    assert nodes[..|nodes|] == nodes;
    return Ok(values);
  }

  lemma {:induction false} EvalErrorSticks(values: Values, nodes: seq<Node>, n: nat, env: Env, size: nat)
    requires n <= |nodes| && env.minutes >= 1 && AllOfSize(values, size)
    ensures var r := NodeValues(values, nodes[..n], env, size); r.Err? ==> NodeValues(values, nodes, env, size) == r
    decreases |nodes|
  {
    if n == |nodes| {
      assert nodes[..n] == nodes;
    } else {
      assert nodes[..|nodes| - 1][..n] == nodes[..n];
      EvalErrorSticks(values, nodes[..|nodes| - 1], n, env, size);
    }
  }

  method EvaluateNode(node: Node, inputs: seq<Column>, env: Env, size: nat) returns (r: Result<Column, EvalError>)
    requires env.minutes >= 1 && inputs != [] && Rectangular(inputs, size)
    ensures match SettingOf(node, env.parameters, env.minutes)
            case Err(e) => r == Err(e)
            case Ok(setting) => r == Ok(NodeColumn(node.op, setting, env.log1p, inputs, size))
  {
    var resolved := SettingOf(node, env.parameters, env.minutes);
    if resolved.Err? {
      return Err(resolved.error);
    }
    var setting := resolved.value;
    if node.op.Windowed() {
      var rolled := RollWindow(node.op, inputs[0], setting.bars);
      assert rolled == NodeColumn(node.op, setting, env.log1p, inputs, size);
      return Ok(rolled);
    }
    var output: Column := [];
    for i := 0 to size
      invariant |output| == i
      invariant forall j :: 0 <= j < i ==> output[j] == RowValue(node.op, setting, env.log1p, inputs, j)
    {
      output := output + [RowValue(node.op, setting, env.log1p, inputs, i)];
    }
    assert output == NodeColumn(node.op, setting, env.log1p, inputs, size);
    return Ok(output);
  }

  method RollWindow(op: Operator, source: Column, bars: nat) returns (output: Column)
    requires op.Windowed() && bars >= 1
    ensures |output| == |source|
    ensures forall i :: 0 <= i < |source| ==> output[i] == WindowedAt(op, source, bars, i)
  {
    output := [];
    for i := 0 to |source|
      invariant |output| == i
      invariant forall j :: 0 <= j < i ==> output[j] == WindowedAt(op, source, bars, j)
    {
      var history := source[Max(0, i - bars)..i];
      if |history| != bars || !AllNumeric(history) {
        output := output + [Missing];
      } else {
        var value := Roll(op, Numbers(history), NumericOf(source[i]));
        output := output + [value];
      }
    }
  }

  method Roll(op: Operator, clean: seq<real>, current: Option<real>) returns (value: Scalar)
    requires op.Windowed() && clean != []
    ensures value == Rolled(op, clean, current)
  {
    value := Missing;
    if op.PctChange? {
      if current.Some? && clean[0] != 0.0 {
        value := Num((current.value - clean[0]) / clean[0]);
      }
    } else {
      var mean := Sum(clean) / |clean| as real;
      if op.RollingMean? {
        value := Num(mean);
      } else if op.RollingRatio? {
        if current.Some? && mean != 0.0 {
          value := Num(current.value / mean);
        }
      } else if current.Some? {
        value := OfOption(RobustZ(clean, current.value));
      }
    }
  }

  // ---------- no look-ahead ----------

  function Prefix(values: Values, n: nat): Values
    requires forall name :: name in values ==> n <= |values[name]|
  {
    map name | name in values :: values[name][..n]
  }

  lemma RowSeesNoFuture(
      op: Operator, setting: Setting, log1p: real -> real, inputs: seq<Column>, cut: seq<Column>,
      n: nat, size: nat, i: nat)
    requires inputs != [] && Rectangular(inputs, size) && (op.Windowed() ==> setting.bars >= 1)
    requires i < n <= size && |cut| == |inputs| && forall k :: 0 <= k < |inputs| ==> cut[k] == inputs[k][..n]
    ensures RowValue(op, setting, log1p, cut, i) == RowValue(op, setting, log1p, inputs, i)
  {
    assert Row(cut, i) == Row(inputs, i);
    if op.Windowed() {
      WindowSeesNoFuture(op, inputs[0], n, setting.bars, i);
    }
  }

  lemma WindowSeesNoFuture(op: Operator, source: Column, n: nat, bars: nat, i: nat)
    requires op.Windowed() && bars >= 1 && i < n <= |source|
    ensures WindowedAt(op, source[..n], bars, i) == WindowedAt(op, source, bars, i)
  {
    if i >= bars {
      assert source[..n][i - bars..i] == source[i - bars..i];
    }
  }

  lemma NodeSeesNoFuture(values: Values, node: Node, env: Env, n: nat, size: nat)
    requires env.minutes >= 1 && AllOfSize(values, size) && n <= size
    ensures NodeValue(Prefix(values, n), node, env, n)
         == match NodeValue(values, node, env, size) case Err(e) => Err(e) case Ok(column) => Ok(column[..n])
  {
    var whole := NodeValue(values, node, env, size);
    if whole.Ok? {
      var inputs, cut := InputsOf(values, node.inputs), InputsOf(Prefix(values, n), node.inputs);
      var setting := SettingOf(node, env.parameters, env.minutes).value;
      forall i | 0 <= i < n
        ensures RowValue(node.op, setting, env.log1p, cut, i) == whole.value[i]
      {
        RowSeesNoFuture(node.op, setting, env.log1p, inputs, cut, n, size, i);
      }
      assert NodeColumn(node.op, setting, env.log1p, cut, n) == whole.value[..n];
    }
  }

  lemma {:induction false} NodesSeeNoFuture(values: Values, nodes: seq<Node>, env: Env, n: nat, size: nat)
    requires env.minutes >= 1 && AllOfSize(values, size) && n <= size
    ensures NodeValues(Prefix(values, n), nodes, env, n)
         == match NodeValues(values, nodes, env, size) case Err(e) => Err(e) case Ok(all) => Ok(Prefix(all, n))
  {
    if nodes == [] {
    } else {
      var front, node := nodes[..|nodes| - 1], nodes[|nodes| - 1];
      NodesSeeNoFuture(values, front, env, n, size);
      var before := NodeValues(values, front, env, size);
      if before.Ok? {
        NodeSeesNoFuture(before.value, node, env, n, size);
        var column := NodeValue(before.value, node, env, size);
        if column.Ok? {
          assert Prefix(before.value[node.id := column.value], n)
              == Prefix(before.value, n)[node.id := column.value[..n]];
        }
      }
    }
  }

  /** No look-ahead: evaluating the first n rows gives the first n rows of the evaluation, in every column,
      and the same error otherwise. */
  lemma NoLookAhead(g: Graph, columns: Values, env: Env, n: nat)
    requires env.minutes >= 1 && EquallySized(columns) && n <= SizeOf(columns)
    ensures Evaluated(g, Prefix(columns, n), env)
         == match Evaluated(g, columns, env) case Err(e) => Err(e) case Ok(all) => Ok(Prefix(all, n))
  {
    var size := SizeOf(columns);
    var cut := Prefix(columns, n);
    assert cut.Keys == columns.Keys;
    var name := Pick(columns.Keys);
    assert cut != map[] by { assert name in cut; }
    assert EquallySized(cut) && SizeOf(cut) == n;
    if g.sources <= columns.Keys {
      var sources := Sources(columns, g.sources);
      assert Prefix(sources, n) == Sources(cut, g.sources);
      NodesSeeNoFuture(sources, g.nodes, env, n, size);
    }
  }

  /** Evaluating every receive-order prefix and keeping its last signal. */
  method ReplayPrefixes(g: Graph, columns: Values, env: Env) returns (r: Result<seq<Scalar>, EvalError>)
    requires env.minutes >= 1 && EquallySized(columns)
    requires Evaluated(g, columns, env).Ok? ==> g.signal in Evaluated(g, columns, env).value
    ensures match Evaluated(g, columns, env)
            case Ok(all) => r == Ok(all[g.signal])
            case Err(e) => r == if SizeOf(columns) == 0 then Ok([]) else Err(e)
  {
    var name :| name in columns;
    var length := |columns[name]|;
    assert length == SizeOf(columns);
    var output: seq<Scalar> := [];
    ghost var whole := Evaluated(g, columns, env);
    for end := 1 to length + 1
      invariant |output| == end - 1
      invariant end > 1 ==> whole.Ok?
      invariant whole.Ok? ==> |whole.value[g.signal]| == length && output == whole.value[g.signal][..end - 1]
    {
      NoLookAhead(g, columns, env, end);
      var evaluated := Evaluate(g, Prefix(columns, end), env);
      if evaluated.Err? {
        return Err(evaluated.error);
      }
      var signal := evaluated.value[g.signal];
      output := output + [signal[|signal| - 1]];
    }
    if length > 0 {
      assert whole.value[g.signal][..length] == whole.value[g.signal];
    }
    return Ok(output);
  }

  // ---------- type soundness ----------

  /** Computed numeric columns hold numbers or nothing; source columns may also hold non-finite floats. */
  predicate Holds(kind: Kind, column: Column) {
    forall i :: 0 <= i < |column| ==> if kind.Boolean? then column[i].Flag? else !column[i].Flag?
  }

  predicate Finite(column: Column) { forall i :: 0 <= i < |column| ==> column[i] != NonFinite }

  predicate WellTyped(values: Values, types: map<string, Kind>, sources: set<string>, size: nat) {
    && values.Keys == types.Keys
    && forall name :: name in values ==>
         && |values[name]| == size && Holds(types[name], values[name])
         && (name !in sources ==> Finite(values[name]))
  }

  /** A window whose parameter is given spans a whole number of candles. */
  predicate Aligned(node: Node, env: Env)
    requires env.minutes >= 1
  {
    node.op.Windowed() && node.window.Some? && node.window.value in env.parameters ==>
      WindowBars(env.parameters[node.window.value], env.minutes).Some?
  }

  lemma WholeWindowsAlign(hours: real, minutes: nat, bars: nat)
    requires minutes >= 1 && bars >= 1 && hours * 60.0 == (bars * minutes) as real
    ensures WindowBars(hours, minutes) == Some(bars)
  {
    assert hours * 60.0 / minutes as real == bars as real;
  }

  lemma RowHasNodeKind(op: Operator, setting: Setting, log1p: real -> real, inputs: seq<Column>, i: nat)
    requires inputs != [] && (op.Windowed() ==> setting.bars >= 1)
    requires forall k :: 0 <= k < |inputs| ==> i < |inputs[k]|
    ensures var x := RowValue(op, setting, log1p, inputs, i);
            if KindOf(op).Boolean? then x.Flag? else x.Num? || x.Missing?
  {
  }

  lemma {:induction false} DeclaredNodesEvaluate(
      types: map<string, Kind>, values: Values, nodes: seq<Node>, parameters: set<string>, env: Env, size: nat,
      sources: set<string>)
    requires env.minutes >= 1 && sources <= types.Keys && WellTyped(values, types, sources, size)
    requires Declared(types, nodes, parameters).Ok? && parameters <= env.parameters.Keys
    requires forall node :: node in nodes ==> Aligned(node, env)
    ensures var r := NodeValues(values, nodes, env, size);
            r.Ok? && WellTyped(r.value, Declared(types, nodes, parameters).value, sources, size)
    ensures types.Keys <= Declared(types, nodes, parameters).value.Keys
  {
    if nodes == [] {
    } else {
      var front, node := nodes[..|nodes| - 1], nodes[|nodes| - 1];
      DeclaredNodesEvaluate(types, values, front, parameters, env, size, sources);
      assert node in nodes && Aligned(node, env);
      NodeKeepsTypes(Declared(types, front, parameters).value, NodeValues(values, front, env, size).value,
                     node, parameters, env, size, sources);
    }
  }

  lemma NodeKeepsTypes(
      known: map<string, Kind>, values: Values, node: Node, parameters: set<string>, env: Env, size: nat,
      sources: set<string>)
    requires env.minutes >= 1 && sources <= known.Keys && WellTyped(values, known, sources, size)
    requires NodeError(node, parameters).None? && parameters <= env.parameters.Keys && Aligned(node, env)
    requires node.inputs != [] && node.id !in known && forall name :: name in node.inputs ==> name in known
    ensures var column := NodeValue(values, node, env, size);
            column.Ok? && WellTyped(values[node.id := column.value], known[node.id := KindOf(node.op)], sources, size)
  {
    var setting := SettingOf(node, env.parameters, env.minutes).value;
    var inputs := InputsOf(values, node.inputs);
    forall i | 0 <= i < size
      ensures var x := RowValue(node.op, setting, env.log1p, inputs, i);
              if KindOf(node.op).Boolean? then x.Flag? else x.Num? || x.Missing?
    {
      RowHasNodeKind(node.op, setting, env.log1p, inputs, i);
    }
  }

  /** Type soundness: a compiled graph over numeric sources, with parameters that fit, evaluates; its
      columns keep the input length and hold only what their kind allows; its signal is Boolean. */
  lemma CompiledGraphsEvaluate(
      sources: seq<string>, nodes: seq<Node>, signal: string, parameters: set<string>, columns: Values, env: Env)
    requires env.minutes >= 1 && Compiled(sources, nodes, signal, parameters).Ok?
    requires EquallySized(columns) && forall name :: name in sources ==> name in columns
    requires forall name :: name in columns ==> Holds(Numeric, columns[name])
    requires parameters <= env.parameters.Keys && forall node :: node in nodes ==> Aligned(node, env)
    ensures var g := Compiled(sources, nodes, signal, parameters).value;
            var types := Declared(SourceKinds(g.sources), nodes, parameters).value;
            var r := Evaluated(g, columns, env);
            && r.Ok? && WellTyped(r.value, types, g.sources, SizeOf(columns))
            && signal in r.value && Holds(Boolean, r.value[signal])
  {
    var g := Compiled(sources, nodes, signal, parameters).value;
    DeclaredNodesEvaluate(SourceKinds(g.sources), Sources(columns, g.sources), nodes, parameters, env,
                          SizeOf(columns), g.sources);
  }

  // ---------- onset ----------

  predicate OnsetAt(values: seq<Scalar>, i: nat)
    requires i < |values|
  {
    Truthy(values[i]) && (i == 0 || !Truthy(values[i - 1]))
  }

  /** Where the signal turns on. */
  method Onset(values: seq<Scalar>) returns (output: seq<bool>)
    ensures |output| == |values| && forall i :: 0 <= i < |values| ==> output[i] == OnsetAt(values, i)
  {
    var previous := false;
    output := [];
    for i := 0 to |values|
      invariant |output| == i && forall j :: 0 <= j < i ==> output[j] == OnsetAt(values, j)
      invariant previous == (i > 0 && Truthy(values[i - 1]))
    {
      var current := Truthy(values[i]);
      output := output + [current && !previous];
      previous := current;
    }
  }
}
