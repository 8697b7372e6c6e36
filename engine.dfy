/**
 * The command-line engine: typed environment lookup recorded in two
 * registries shared by every engine, the help epilog built from them, and
 * the dispatch to the chosen subcommand.
 */
module Engine {
  import opened Wrappers
  import Text

  /**
   * The `expected_type` handed to `get_env`; any other class carries its
   * `__name__` and its `str()` (such as "<class 'pathlib.Path'>").
   */
  datatype TypeTag = BoolType | IntType | StrType | OtherType(name: string, display: string)

  /** A converted value. */
  datatype EnvValue = BoolVal(b: bool) | IntVal(i: int) | StrVal(s: string)

  /** The `TypeError` `get_env` raises for an unsupported type. */
  datatype EnvError = TypeError(message: string)

  /** The type's `__name__`. */
  function TypeName(t: TypeTag): string {
    match t
    case BoolType => "bool"
    case IntType => "int"
    case StrType => "str"
    case OtherType(name, _) => name
  }

  predicate HasType(v: EnvValue, t: TypeTag) {
    match v
    case BoolVal(_) => t == BoolType
    case IntVal(_) => t == IntType
    case StrVal(_) => t == StrType
  }

  /** The bool branch: "true"/"1" and "false"/"0" in any ASCII case, anything else unset. */
  function ParseBool(s: string): (r: Option<bool>)
    ensures r == Some(true) <==> Text.Lower(s) == "true" || Text.Lower(s) == "1"
    ensures r == Some(false) <==> Text.Lower(s) == "false" || Text.Lower(s) == "0"
  {
    var l := Text.Lower(s);
    if l == "true" || l == "1" then Some(true)
    else if l == "false" || l == "0" then Some(false)
    else None
  }

  /**
   * `get_env`'s conversion of `os.getenv(variable)`: unset stays unset before
   * the type is looked at; a set value of an unsupported type is the only error.
   */
  function Convert(val: Option<string>, tag: TypeTag): (r: Result<Option<EnvValue>, EnvError>)
    ensures val.None? ==> r == Success(None)
    ensures r.Failure? <==> val.Some? && tag.OtherType?
    ensures r.Failure? ==> r.error == TypeError("Unsupported type: " + tag.display)
    ensures r.Success? && r.value.Some? ==> HasType(r.value.value, tag)
    ensures val.Some? && tag == StrType ==> r == Success(Some(StrVal(val.value)))
    ensures val.Some? && tag == BoolType ==>
      && (r == Success(Some(BoolVal(true))) <==> Text.Lower(val.value) == "true" || Text.Lower(val.value) == "1")
      && (r == Success(Some(BoolVal(false))) <==> Text.Lower(val.value) == "false" || Text.Lower(val.value) == "0")
    ensures val.Some? && tag == IntType ==>
      r == Success(if Text.ParseInt(val.value).Some? then Some(IntVal(Text.ParseInt(val.value).value)) else None)
  {
    match val
    case None => Success(None)
    case Some(s) =>
      match tag
      case BoolType =>
        Success(match ParseBool(s) case Some(b) => Some(BoolVal(b)) case None => None)
      case IntType =>
        Success(match Text.ParseInt(s) case Some(i) => Some(IntVal(i)) case None => None)
      case StrType => Success(Some(StrVal(s)))
      case OtherType(_, display) => Failure(TypeError("Unsupported type: " + display))
  }

  /** `f"{v}"`. */
  function Render(v: EnvValue): string {
    match v
    case BoolVal(b) => if b then "True" else "False"
    case IntVal(i) => Text.IntToString(i)
    case StrVal(s) => s
  }

  function TagOf(v: EnvValue): TypeTag {
    match v
    case BoolVal(_) => BoolType
    case IntVal(_) => IntType
    case StrVal(_) => StrType
  }

  /** Setting a variable to the printed form of a value reads that value back under its own type. */
  lemma ConvertRendered(v: EnvValue)
    ensures Convert(Some(Render(v)), TagOf(v)) == Success(Some(v))
  {
    match v
    case BoolVal(b) =>
      assert Text.Lower("True") == "true";
      assert Text.Lower("False") == "false";
    case IntVal(i) =>
      Text.ParseIntRoundTrip(i);
    case StrVal(_) =>
  }

  /** Python truthiness of the stored value. */
  predicate Truthy(val: Option<EnvValue>) {
    match val
    case None => false
    case Some(BoolVal(b)) => b
    case Some(IntVal(i)) => i != 0
    case Some(StrVal(s)) => s != ""
  }

  // ----- The shared registries `_env_types` and `_env_vals` -----

  /**
   * The class attributes `_env_types` and `_env_vals`: one object that every
   * engine refers to. `order` is the dicts' insertion order.
   */
  class EnvRegistry {
    var order: seq<string>
    var types: map<string, TypeTag>
    var vals: map<string, Option<EnvValue>>

    /** Both dicts hold the same variables, each once in `order`. */
    ghost predicate Valid()
      reads this
    {
      && (forall i, j :: 0 <= i < j < |order| ==> order[i] != order[j])
      && (forall k :: k in types <==> k in order)
      && types.Keys == vals.Keys
    }

    constructor ()
      ensures Valid() && order == [] && types == map[] && vals == map[]
    {
      order := [];
      types := map[];
      vals := map[];
    }

    /** `self._env_types[variable] = ...; self._env_vals[variable] = ...`: a new key goes last, an old one keeps its place. */
    method Record(variable: string, tag: TypeTag, val: Option<EnvValue>)
      requires Valid()
      modifies this
      ensures Valid()
      ensures order == if variable in old(types) then old(order) else old(order) + [variable]
      ensures types == old(types)[variable := tag] && vals == old(vals)[variable := val]
    {
      if variable !in types {
        order := order + [variable];
      }
      types := types[variable := tag];
      vals := vals[variable := val];
    }
  }

  // ----- The epilog -----

  /** `"  NAME  typename"`, the current value only when it is truthy, then a newline. */
  function EnvLine(name: string, tag: TypeTag, val: Option<EnvValue>): string {
    "  " + name + "  " + TypeName(tag)
    + (if Truthy(val) then "  (current: " + Render(val.value) + ")" else "")
    + "\n"
  }

  /**
   * A line starts with the name and the type name, ends with its newline,
   * and holds anything in between exactly when the value is truthy, in which
   * case that is the value's printed form.
   */
  lemma EnvLineShape(name: string, tag: TypeTag, val: Option<EnvValue>)
    ensures var head := "  " + name + "  " + TypeName(tag);
      var line := EnvLine(name, tag, val);
      && |line| > |head| && line[..|head|] == head && line[|line| - 1] == '\n'
      && (Truthy(val) <==> |line| > |head| + 1)
      && (Truthy(val) ==> line[|head|..|line| - 1] == "  (current: " + Render(val.value) + ")")
  {
  }

  predicate Registered(order: seq<string>, types: map<string, TypeTag>, vals: map<string, Option<EnvValue>>) {
    forall k :: k in order ==> k in types && k in vals
  }

  /** One line per variable of `order`, in that order. */
  function EnvLines(order: seq<string>, types: map<string, TypeTag>, vals: map<string, Option<EnvValue>>): string
    requires Registered(order, types, vals)
  {
    if |order| == 0 then ""
    else EnvLine(order[0], types[order[0]], vals[order[0]]) + EnvLines(order[1..], types, vals)
  }

  const EPILOG_HEADER: string := "environment variables:\n"

  function Epilog(order: seq<string>, types: map<string, TypeTag>, vals: map<string, Option<EnvValue>>): string
    requires Registered(order, types, vals)
  {
    EPILOG_HEADER + EnvLines(order, types, vals)
  }

  lemma {:induction false} EnvLinesAppend(a: seq<string>, b: seq<string>, types: map<string, TypeTag>, vals: map<string, Option<EnvValue>>)
    requires Registered(a + b, types, vals)
    ensures Registered(a, types, vals) && Registered(b, types, vals)
    ensures EnvLines(a + b, types, vals) == EnvLines(a, types, vals) + EnvLines(b, types, vals)
  {
    assert forall k :: k in a ==> k in a + b;
    assert forall k :: k in b ==> k in a + b;
    if |a| > 0 {
      var head := EnvLine(a[0], types[a[0]], vals[a[0]]);
      assert (a + b)[0] == a[0];
      assert (a + b)[1..] == a[1..] + b;
      EnvLinesAppend(a[1..], b, types, vals);
      assert EnvLines(a + b, types, vals) == head + EnvLines(a[1..] + b, types, vals);
      assert head + (EnvLines(a[1..], types, vals) + EnvLines(b, types, vals))
          == (head + EnvLines(a[1..], types, vals)) + EnvLines(b, types, vals);
    } else {
      assert a + b == b;
    }
  }

  /** Lines of variables other than `v` do not depend on `v`'s entries. */
  lemma {:induction false} EnvLinesIgnoreOthers(s: seq<string>, types: map<string, TypeTag>, vals: map<string, Option<EnvValue>>,
                                                 v: string, tag: TypeTag, val: Option<EnvValue>)
    requires Registered(s, types, vals) && v !in s
    ensures Registered(s, types[v := tag], vals[v := val])
    ensures EnvLines(s, types[v := tag], vals[v := val]) == EnvLines(s, types, vals)
  {
    if |s| > 0 {
      EnvLinesIgnoreOthers(s[1..], types, vals, v, tag, val);
    }
  }

  /** Registering a new variable adds exactly one line, at the end of the epilog. */
  lemma EpilogAfterNewVariable(order: seq<string>, types: map<string, TypeTag>, vals: map<string, Option<EnvValue>>,
                               v: string, tag: TypeTag, val: Option<EnvValue>)
    requires Registered(order, types, vals) && v !in order
    ensures Registered(order + [v], types[v := tag], vals[v := val])
    ensures Epilog(order + [v], types[v := tag], vals[v := val]) == Epilog(order, types, vals) + EnvLine(v, tag, val)
  {
    var types', vals' := types[v := tag], vals[v := val];
    EnvLinesIgnoreOthers(order, types, vals, v, tag, val);
    assert Registered(order + [v], types', vals');
    EnvLinesAppend(order, [v], types', vals');
    assert EnvLines([v], types', vals') == EnvLine(v, tag, val) + EnvLines([], types', vals');
  }

  /** The lines around the one of the variable at position `j`. */
  lemma EnvLinesSplit(order: seq<string>, types: map<string, TypeTag>, vals: map<string, Option<EnvValue>>, j: nat)
    requires Registered(order, types, vals) && j < |order|
    ensures Registered(order[..j], types, vals) && Registered(order[j + 1..], types, vals)
    ensures EnvLines(order, types, vals) ==
      EnvLines(order[..j], types, vals) + EnvLine(order[j], types[order[j]], vals[order[j]]) + EnvLines(order[j + 1..], types, vals)
  {
    var v := order[j];
    assert order == order[..j] + ([v] + order[j + 1..]);
    EnvLinesAppend(order[..j], [v] + order[j + 1..], types, vals);
    EnvLinesAppend([v], order[j + 1..], types, vals);
    assert EnvLines([v], types, vals) == EnvLine(v, types[v], vals[v]) + EnvLines([], types, vals);
  }

  /** In a list without repeats, the entry at `j` occurs neither before nor after `j`. */
  lemma OnlyOnce(order: seq<string>, j: nat)
    requires forall i, k :: 0 <= i < k < |order| ==> order[i] != order[k]
    requires j < |order|
    ensures order[j] !in order[..j] && order[j] !in order[j + 1..]
  {
    var before, after := order[..j], order[j + 1..];
    assert forall i :: 0 <= i < |before| ==> before[i] == order[i];
    assert forall i :: 0 <= i < |after| ==> after[i] == order[j + 1 + i];
  }

  /** Rewriting the entries of a variable listed once changes its own line and no other. */
  lemma EnvLinesAtRewrite(order: seq<string>, types: map<string, TypeTag>, vals: map<string, Option<EnvValue>>,
                          j: nat, tag: TypeTag, val: Option<EnvValue>)
    requires Registered(order, types, vals) && j < |order|
    requires order[j] !in order[..j] && order[j] !in order[j + 1..]
    ensures Registered(order, types[order[j] := tag], vals[order[j] := val])
    ensures Registered(order[..j], types, vals) && Registered(order[j + 1..], types, vals)
    ensures EnvLines(order, types[order[j] := tag], vals[order[j] := val]) ==
      EnvLines(order[..j], types, vals) + EnvLine(order[j], tag, val) + EnvLines(order[j + 1..], types, vals)
  {
    var v := order[j];
    var types', vals' := types[v := tag], vals[v := val];
    assert Registered(order, types', vals');
    EnvLinesSplit(order, types', vals', j);
    EnvLinesSplit(order, types, vals, j);
    EnvLinesIgnoreOthers(order[..j], types, vals, v, tag, val);
    EnvLinesIgnoreOthers(order[j + 1..], types, vals, v, tag, val);
  }

  /** Registering a variable again rewrites its own line, in place, and no other. */
  lemma EpilogAfterReregistration(order: seq<string>, types: map<string, TypeTag>, vals: map<string, Option<EnvValue>>,
                                  j: nat, tag: TypeTag, val: Option<EnvValue>)
    requires Registered(order, types, vals)
    requires forall i, k :: 0 <= i < k < |order| ==> order[i] != order[k]
    requires j < |order|
    ensures Registered(order, types[order[j] := tag], vals[order[j] := val])
    ensures Registered(order[..j], types, vals) && Registered(order[j + 1..], types, vals)
    ensures Epilog(order, types[order[j] := tag], vals[order[j] := val]) ==
      Epilog(order[..j], types, vals) + EnvLine(order[j], tag, val) + EnvLines(order[j + 1..], types, vals)
  {
    OnlyOnce(order, j);
    EnvLinesAtRewrite(order, types, vals, j, tag, val);
    var b, l, r := EnvLines(order[..j], types, vals), EnvLine(order[j], tag, val), EnvLines(order[j + 1..], types, vals);
    assert EPILOG_HEADER + (b + l + r) == EPILOG_HEADER + b + l + r;
  }

  // ----- Dispatch -----

  /** A registered command: its class name, and the `exit_code` it holds once `do` has run. */
  datatype Command = Command(className: string, exitCode: int)

  /** `launch` either exits with the code of the command at `index`, or falls through. */
  datatype Launched = Exited(index: nat, code: int) | NoMatch

  predicate Chosen(c: Command, chosen: Option<string>) {
    chosen == Some(Text.Lower(c.className))
  }

  /** The index of the first command the chosen subcommand names (`|commands|` if none). */
  function FirstMatch(commands: seq<Command>, chosen: Option<string>): (k: nat)
    ensures k <= |commands|
    ensures forall i :: 0 <= i < k ==> !Chosen(commands[i], chosen)
    ensures k < |commands| ==> Chosen(commands[k], chosen)
  {
    if |commands| == 0 || Chosen(commands[0], chosen) then 0 else 1 + FirstMatch(commands[1..], chosen)
  }

  /** The dispatch loop of `launch`: the first match runs and `sys.exit`s the loop. */
  method Dispatch(commands: seq<Command>, chosen: Option<string>) returns (r: Launched)
    ensures var k := FirstMatch(commands, chosen);
      r == if k < |commands| then Exited(k, commands[k].exitCode) else NoMatch
  {
    var i := 0;
    while i < |commands|
      invariant 0 <= i <= |commands|
      invariant forall j :: 0 <= j < i ==> !Chosen(commands[j], chosen)
    {
      if chosen == Some(Text.Lower(commands[i].className)) {
        return Exited(i, commands[i].exitCode);
      }
      i := i + 1;
    }
    return NoMatch;
  }

  /** One line of `_process_env`: prefix, body, suffix. */
  method FormatLine(env: string, tag: TypeTag, val: Option<EnvValue>) returns (line: string)
    ensures var head := "  " + env + "  " + TypeName(tag);
      && |line| > |head| && line[..|head|] == head && line[|line| - 1] == '\n'
      && (Truthy(val) <==> |line| > |head| + 1)
    ensures line == EnvLine(env, tag, val)
  {
    EnvLineShape(env, tag, val);
    var prefix := "  " + env + "  " + TypeName(tag);
    var body := if Truthy(val) then "  (current: " + Render(val.value) + ")" else "";
    var suffix := "\n";
    line := prefix + body + suffix;
  }

  /** The lines from position `i` on: that variable's, then the later ones. */
  lemma EnvLinesStep(order: seq<string>, types: map<string, TypeTag>, vals: map<string, Option<EnvValue>>, i: nat)
    requires i < |order| && Registered(order[i..], types, vals)
    ensures order[i] in types && order[i] in vals && Registered(order[i + 1..], types, vals)
    ensures EnvLines(order[i..], types, vals) == EnvLine(order[i], types[order[i]], vals[order[i]]) + EnvLines(order[i + 1..], types, vals)
  {
    assert order[i..][0] == order[i];
    assert order[i..][1..] == order[i + 1..];
  }

  /** The loop of `_process_env`: the header, then `message +=` one line per registered variable. */
  method BuildEpilog(order: seq<string>, types: map<string, TypeTag>, vals: map<string, Option<EnvValue>>) returns (message: string)
    requires Registered(order, types, vals)
    ensures message == Epilog(order, types, vals)
  {
    message := EPILOG_HEADER;
    var i := 0;
    while i < |order|
      invariant 0 <= i <= |order|
      invariant Registered(order[i..], types, vals)
      invariant Epilog(order, types, vals) == message + EnvLines(order[i..], types, vals)
    {
      EnvLinesStep(order, types, vals, i);
      var env := order[i];
      var line := FormatLine(env, types[env], vals[env]);
      AppendAssoc(message, line, EnvLines(order[i + 1..], types, vals));
      message := message + line;
      i := i + 1;
    }
    assert order[i..] == [];
  }

  /** `ArgparseEngine`: its commands, the parser's epilog, and the shared registries. */
  class ArgparseEngine {
    const registry: EnvRegistry
    var commands: seq<Command>
    var epilog: Option<string>

    constructor (registry: EnvRegistry)
      ensures this.registry == registry && commands == [] && epilog == None
    {
      this.registry := registry;
      commands := [];
      epilog := None;
    }

    method AddCommand(c: Command)
      modifies this
      ensures commands == old(commands) + [c] && epilog == old(epilog)
    {
      commands := commands + [c];
    }

    /**
     * `get_env(variable, expected_type)`, reading the environment `environ`:
     * the converted value, recorded in the shared registries unless the
     * conversion raised.
     */
    method GetEnv(variable: string, environ: map<string, string>, tag: TypeTag) returns (r: Result<Option<EnvValue>, EnvError>)
      requires registry.Valid()
      modifies registry
      ensures registry.Valid()
      ensures r == Convert(if variable in environ then Some(environ[variable]) else None, tag)
      ensures r.Failure? ==> unchanged(registry)
      ensures r.Success? ==>
        && registry.types == old(registry.types)[variable := tag]
        && registry.vals == old(registry.vals)[variable := r.value]
        && registry.order == if variable in old(registry.types) then old(registry.order) else old(registry.order) + [variable]
    {
      var val := if variable in environ then Some(environ[variable]) else None;
      r := Convert(val, tag);
      if r.Failure? {
        return;
      }
      registry.Record(variable, tag, r.value);
    }

    /** `_process_env`: the epilog built from the registries, assigned to the parser. */
    method ProcessEnv()
      requires registry.Valid()
      modifies this
      ensures Registered(registry.order, registry.types, registry.vals)
      ensures epilog == Some(Epilog(registry.order, registry.types, registry.vals))
      ensures commands == old(commands)
    {
      var message := BuildEpilog(registry.order, registry.types, registry.vals);
      epilog := Some(message);
    }

    /** `launch`: build the epilog, then run the first command the chosen subcommand names. */
    method Launch(chosen: Option<string>) returns (r: Launched)
      requires registry.Valid()
      modifies this
      ensures Registered(registry.order, registry.types, registry.vals)
      ensures epilog == Some(Epilog(registry.order, registry.types, registry.vals))
      ensures commands == old(commands)
      ensures var k := FirstMatch(commands, chosen);
        r == if k < |commands| then Exited(k, commands[k].exitCode) else NoMatch
    {
      ProcessEnv();
      r := Dispatch(commands, chosen);
    }
  }
}
