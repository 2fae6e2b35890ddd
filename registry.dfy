/**
 * The service manager of tasoft/php-service-manager: a registry that maps service names
 * to containers, creates each service instance lazily on first use, resolves `%param%`
 * placeholders and `$service` references in constructor arguments and configurations,
 * answers class queries without loading where it can, and keeps a persisted list of
 * services whose install hook has run.
 *
 * PHP exceptions are `Err` results, PHP warnings and notices and the calls of the
 * install/uninstall hooks are appended to the manager's `events` log.
 */
module Registry {
  import opened Base
  import Placeholders
  import Lifecycle
  import OrderedMaps

  // ---------------------------------------------------------------------------
  // PHP values
  // ---------------------------------------------------------------------------

  /** An array key; PHP normalises numeric string keys to integers. */
  datatype Key = IntKey(i: int) | StrKey(s: string)

  /** The PHP values the manager handles. Arrays keep their entries in order. */
  datatype Value =
    | Null
    | BoolV(b: bool)
    | IntV(i: int)
    | StrV(s: string)
    | Arr(entries: seq<(Key, Value)>)
    | Obj(o: ServiceObject)
    | Cont(c: Container)
    | Manager   // the service manager itself

  /** PHP's conversion to bool (`if ($v)`, `?:`). */
  predicate Truthy(v: Value) {
    match v
    case Null => false
    case BoolV(b) => b
    case IntV(i) => i != 0
    case StrV(s) => s != "" && s != "0"
    case Arr(es) => es != []
    case _ => true
  }

  predicate IsObject(v: Value) {
    v.Obj? || v.Cont? || v.Manager?
  }

  /** The value stored under k in an entry list (the first, keys being unique), or null. */
  function Find(es: seq<(Key, Value)>, k: Key): (r: Value)
    ensures r != Null ==> exists i :: 0 <= i < |es| && es[i] == (k, r)
    ensures (forall i :: 0 <= i < |es| ==> es[i].0 != k) ==> r == Null
  {
    if es == [] then Null
    else if es[0].0 == k then es[0].1
    else
      var r := Find(es[1..], k);
      assert r != Null ==> exists i :: 0 <= i < |es[1..]| && es[1..][i] == (k, r);
      r
  }

  /** `$v[$k] ?? NULL` */
  function Lookup(v: Value, k: Key): Value {
    if v.Arr? then Find(v.entries, k) else Null
  }

  /** `array_values` */
  function Values(es: seq<(Key, Value)>): (vs: seq<Value>)
    ensures |vs| == |es|
    ensures forall i :: 0 <= i < |es| ==> vs[i] == es[i].1
  {
    seq(|es|, i requires 0 <= i < |es| => es[i].1)
  }

  /** An array key used as a service name (the `string` parameter of `set`). */
  function KeyString(k: Key): string {
    match k
    case IntKey(i) => IntToString(i)
    case StrKey(s) => s
  }

  /** A collection argument turned into an array: arrays as they are, anything else wrapped. */
  function MakeArray(v: Value): (es: seq<(Key, Value)>)
    ensures v.Arr? ==> es == v.entries
    ensures !v.Arr? ==> es == [(IntKey(0), v)]
  {
    if v.Arr? then v.entries else [(IntKey(0), v)]
  }

  // ---------------------------------------------------------------------------
  // Diagnostics
  // ---------------------------------------------------------------------------

  /** Warnings, notices and hook calls, in the order they happen. */
  datatype Event =
    | ParameterNotSet(placeholder: string)       // E_USER_WARNING from the PARAMETERS handler
    | ArrayToStringConversion                   // notice when an array parameter is spliced into a string
    | AlreadyRegisteredNotice(name: string)     // E_USER_NOTICE of `set` in replace mode
    | UnknownClassWarning(cls: string)          // class_implements() on an unknown class
    | GetClassOnNonObject                       // get_class() on a value that is not an object
    | UndefinedIndex(name: string)              // reading a missing array index
    | Installed(service: string)                // RegistryServiceInterface::installService called
    | Uninstalled(service: string)              // RegistryServiceInterface::uninstallService called

  /** Exceptions and errors. */
  datatype Error =
    | UnknownService(name: string)
    | AlreadyRegistered(name: string)
    | NotAnObject
    | BadConfiguration(config: Value, named: Option<string>)
    | BadContainer(service: string, cause: Error)
    | NotAContainer(cls: string)
    | Rewrapped(service: string, cause: Error)
    | InvalidService(service: string, returned: Value)
    | FileNotFound(service: string, file: string)
    | ClassNotFound(cls: string)
    | TooFewArguments(cls: string)
    | TypeError
    | NotConvertibleToString
    | CallbackFailed
    | MemberCallOnNull
    | NestingLimit

  /** The exceptions of the package's own hierarchy (what `__get` swallows). */
  predicate IsServiceException(e: Error) {
    e.UnknownService? || e.AlreadyRegistered? || e.NotAnObject? || e.BadConfiguration?
    || e.BadContainer? || e.NotAContainer? || e.Rewrapped? || e.InvalidService? || e.FileNotFound?
  }

  datatype Result<+T> = Ok(value: T) | Err(error: Error) {
    predicate IsFailure() {
      Err?
    }
    function PropagateFailure<U>(): Result<U>
      requires Err?
    {
      Err(error)
    }
    function Extract(): T
      requires Ok?
    {
      value
    }
  }

  /** `(string)$v` as preg_replace_callback applies it to a callback's return value. */
  function StringCast(v: Value): (r: Result<(string, seq<Event>)>)
    ensures r.Err? <==> IsObject(v)
    ensures r.Ok? && !v.Arr? ==> r.value.1 == []
    ensures v.StrV? ==> r == Ok((v.s, []))
  {
    match v
    case Null => Ok(("", []))
    case BoolV(b) => Ok((if b then "1" else "", []))
    case IntV(i) => Ok((IntToString(i), []))
    case StrV(s) => Ok((s, []))
    case Arr(_) => Ok(("Array", [ArrayToStringConversion]))
    case _ => Err(NotConvertibleToString)
  }

  /** A value passed to a `string` parameter or returned as `: string` (coercive typing). */
  function StringParam(v: Value): (r: Result<string>)
    ensures r.Ok? <==> (v.BoolV? || v.IntV? || v.StrV?)
    ensures v.StrV? ==> r == Ok(v.s)
  {
    match v
    case BoolV(b) => Ok(if b then "1" else "")
    case IntV(i) => Ok(IntToString(i))
    case StrV(s) => Ok(s)
    case _ => Err(TypeError)
  }

  // ---------------------------------------------------------------------------
  // Service configuration
  // ---------------------------------------------------------------------------

  /** The keys of one service's configuration array. */
  datatype ConfigKey = ClassKey | ContainerKey | FileKey | TypeKey | ArgumentsKey | ConfigurationKey | InitKey

  function KeyName(k: ConfigKey): string {
    match k
    case ClassKey => "class"
    case ContainerKey => "container"
    case FileKey => "file"
    case TypeKey => "type"
    case ArgumentsKey => "arguments"
    case ConfigurationKey => "configuration"
    case InitKey => "init"
  }

  /** `$config[KEY] ?? NULL` */
  function Setting(config: seq<(Key, Value)>, k: ConfigKey): Value {
    Find(config, StrKey(KeyName(k)))
  }

  /** The check in the configured container's constructor: one creation key is set (non-null). */
  predicate Instantiable(config: seq<(Key, Value)>) {
    Setting(config, ClassKey) != Null || Setting(config, FileKey) != Null || Setting(config, ContainerKey) != Null
  }

  /** The creation keys in the order `loadInstance` tries them. */
  const StrategyOrder: seq<ConfigKey> := [ClassKey, ContainerKey, FileKey]

  /** Index of the first key in keys whose setting is truthy (|keys| when there is none). */
  function FirstTruthy(config: seq<(Key, Value)>, keys: seq<ConfigKey>): (i: nat)
    ensures i <= |keys|
    ensures i < |keys| ==> Truthy(Setting(config, keys[i]))
    ensures forall j :: 0 <= j < i ==> !Truthy(Setting(config, keys[j]))
  {
    if keys == [] then 0
    else if Truthy(Setting(config, keys[0])) then 0
    else 1 + FirstTruthy(config, keys[1..])
  }

  /** The creation strategy `loadInstance` uses: class, then container, then file. */
  function Strategy(config: seq<(Key, Value)>): (s: Option<ConfigKey>)
    ensures s.Some? ==> s.value in StrategyOrder && Truthy(Setting(config, s.value))
    ensures s == Some(ContainerKey) ==> !Truthy(Setting(config, ClassKey))
    ensures s == Some(FileKey) ==> !Truthy(Setting(config, ClassKey)) && !Truthy(Setting(config, ContainerKey))
    ensures s.None? <==> forall k :: k in StrategyOrder ==> !Truthy(Setting(config, k))
  {
    var i := FirstTruthy(config, StrategyOrder);
    assert StrategyOrder[0] == ClassKey && StrategyOrder[1] == ContainerKey && StrategyOrder[2] == FileKey;
    if i < |StrategyOrder| then Some(StrategyOrder[i]) else None
  }

  /** A configuration that has a strategy passes the constructor's check. */
  lemma StrategyImpliesInstantiable(config: seq<(Key, Value)>)
    requires Strategy(config).Some?
    ensures Instantiable(config)
  {
  }

  /**
   * The converse fails: `['class' => '']` passes the constructor's isset check but
   * gives loadInstance nothing to do.
   */
  lemma InstantiableWithoutStrategy()
    ensures Instantiable([(StrKey("class"), StrV(""))])
    ensures Strategy([(StrKey("class"), StrV(""))]).None?
  {
    var config := [(StrKey("class"), StrV(""))];
    assert Setting(config, ClassKey) == StrV("");
    assert Setting(config, ContainerKey) == Null;
    assert Setting(config, FileKey) == Null;
  }

  // ---------------------------------------------------------------------------
  // Classes known to the program
  // ---------------------------------------------------------------------------

  /** What `loadInstance` of a user container class does. */
  datatype LoadBehaviour =
    | AssignsNew(cls: string)          // stores a new object of cls in `instance`
    | ReturnsNew(cls: string)          // returns a new object of cls without storing it
    | ReturnsItself                    // returns the container itself
    | ReturnsNothing                   // stores and returns nothing
    | RaisesBadConfiguration           // throws a BadConfigurationException

  /** A user container class (a subclass of AbstractContainer). */
  datatype ContainerClass = ContainerClass(load: LoadBehaviour, reports: Option<string>)

  /** What the manager asks of a class. */
  datatype ClassInfo = ClassInfo(
    ancestors: set<string>,                        // parent classes and interfaces (is_subclass_of)
    template: Option<seq<(Key, Value)>>,           // getConstructorArguments() of a constructor-aware service
    staticConstruction: bool,                      // StaticConstructorServiceInterface: new C($arguments, $sm)
    registryService: bool,                         // RegistryServiceInterface
    configurable: bool,                            // has setConfiguration()
    requiredArgs: nat,                             // required constructor parameters
    container: Option<ContainerClass>)             // the class is a container class

  type ClassTable = map<string, ClassInfo>

  const ManagerClass := "TASoft\\Service\\ServiceManager"
  const ManagerInterface := "TASoft\\Service\\ServiceManagerInterface"
  const StaticContainerClass := "TASoft\\Service\\Container\\StaticContainer"
  const CallbackContainerClass := "TASoft\\Service\\Container\\CallbackContainer"
  const ConfiguredContainerClass := "TASoft\\Service\\Container\\ConfiguredServiceContainer"

  /** `$this instanceof $cn` for the manager. */
  predicate ManagerIsA(cn: string) {
    cn == ManagerClass || cn == ManagerInterface
  }

  /** What a callable registered with `set` does when called. */
  datatype Factory = MakesNew(cls: string) | Returns(v: Value) | Fails

  /** What requiring a service file yields. */
  datatype ScriptResult = ScriptObject(cls: string) | ScriptValue(v: Value)

  // ---------------------------------------------------------------------------
  // Parameters
  // ---------------------------------------------------------------------------

  type Parameters = map<string, Value>

  /** `getParameter`: the value and whether it counts as contained (isset). */
  function GetParam(params: Parameters, name: string): (r: (Value, bool))
    ensures r.1 <==> name in params && params[name] != Null
    ensures r.0 == (if name in params then params[name] else Null)
  {
    if name in params && params[name] != Null then (params[name], true) else (Null, false)
  }

  /**
   * `setParameter`: a falsy name is ignored; null removes a set parameter; anything
   * else, including null for a name that is not set, is stored.
   */
  function SetParam(params: Parameters, name: string, v: Value): (r: Parameters)
    ensures name == "" || name == "0" ==> r == params
    ensures name != "" && name != "0" ==> GetParam(r, name) == (v, v != Null)
    ensures forall m :: m != name ==> (m in r <==> m in params) && (m in r ==> r[m] == params[m])
  {
    if name == "" || name == "0" then params
    else if v == Null && name in params && params[name] != Null then params - {name}
    else params[name := v]
  }

  /** Setting a parameter is read back exactly; other parameters are untouched. */
  lemma SetThenGetParam(params: Parameters, name: string, v: Value, other: string)
    requires name != "" && name != "0" && other != name
    ensures GetParam(SetParam(params, name, v), name) == (v, v != Null)
    ensures GetParam(SetParam(params, name, v), other) == GetParam(params, other)
  {
  }

  /** The names "" and "0" are falsy: nothing can be stored under them. */
  lemma FalsyParamNameIgnored(params: Parameters, v: Value)
    ensures SetParam(params, "", v) == params && SetParam(params, "0", v) == params
  {
  }

  /** The value of one placeholder spliced into a string, with its diagnostics. */
  function Splice(params: Parameters, name: string): (r: Result<(string, seq<Event>)>)
    ensures !GetParam(params, name).1 ==> r == Ok(("%" + name + "%", [ParameterNotSet("%" + name + "%")]))
  {
    var (par, contained) := GetParam(params, name);
    if contained then StringCast(par)
    else Ok(("%" + name + "%", [ParameterNotSet("%" + name + "%")]))
  }

  /** A set parameter that is an object: (string) of it fails. */
  predicate SetObject(params: Parameters, name: string) {
    GetParam(params, name).1 && IsObject(GetParam(params, name).0)
  }

  /**
   * preg_replace_callback over the scanned segments of a string: it fails exactly when
   * some placeholder names a set parameter that is an object.
   */
  function Substitute(params: Parameters, segs: seq<Placeholders.Segment>): (r: Result<(string, seq<Event>)>)
    ensures r.Err? <==> exists i :: 0 <= i < |segs| && segs[i].Placeholder? && SetObject(params, segs[i].name)
    ensures r.Err? ==> r.error == NotConvertibleToString
  {
    if segs == [] then Ok(([], []))
    else
      var head := SpliceSegment(params, segs[0]);
      assert head.Err? <==> segs[0].Placeholder? && SetObject(params, segs[0].name);
      if head.Err? then Err(head.error)
      else
        var rest := Substitute(params, segs[1..]);
        assert forall i :: 1 <= i < |segs| ==> segs[i] == segs[1..][i - 1];
        assert rest.Err? ==> exists i :: 1 <= i < |segs| && segs[i].Placeholder? && SetObject(params, segs[i].name) by {
          if rest.Err? {
            var j :| 0 <= j < |segs[1..]| && segs[1..][j].Placeholder? && SetObject(params, segs[1..][j].name);
            assert segs[j + 1] == segs[1..][j];
          }
        }
        if rest.Err? then rest
        else Ok((head.value.0 + rest.value.0, head.value.1 + rest.value.1))
  }

  /** What the callback makes of one segment: a literal stays, a placeholder is spliced. */
  function SpliceSegment(params: Parameters, seg: Placeholders.Segment): Result<(string, seq<Event>)> {
    match seg
    case Lit(c) => Ok(([c], []))
    case Placeholder(name) => Splice(params, name)
  }

  /** Two substitution results one after the other: the first failure, else both joined. */
  function Join(x: Result<(string, seq<Event>)>, y: Result<(string, seq<Event>)>): Result<(string, seq<Event>)> {
    if x.Err? then x else if y.Err? then y else Ok((x.value.0 + y.value.0, x.value.1 + y.value.1))
  }

  lemma JoinAssoc(x: Result<(string, seq<Event>)>, y: Result<(string, seq<Event>)>, z: Result<(string, seq<Event>)>)
    ensures Join(Join(x, y), z) == Join(x, Join(y, z))
  {
    if x.Ok? && y.Ok? && z.Ok? {
      assert x.value.0 + y.value.0 + z.value.0 == x.value.0 + (y.value.0 + z.value.0);
      assert x.value.1 + y.value.1 + z.value.1 == x.value.1 + (y.value.1 + z.value.1);
    }
  }

  lemma SubstituteCons(params: Parameters, seg: Placeholders.Segment, rest: seq<Placeholders.Segment>)
    ensures Substitute(params, [seg] + rest) == Join(SpliceSegment(params, seg), Substitute(params, rest))
  {
    assert ([seg] + rest)[0] == seg && ([seg] + rest)[1..] == rest;
  }

  /** Substitution works segment by segment: a split string substitutes part by part. */
  lemma {:induction false} SubstituteAppend(params: Parameters, a: seq<Placeholders.Segment>, b: seq<Placeholders.Segment>)
    ensures Substitute(params, a + b) == Join(Substitute(params, a), Substitute(params, b))
    decreases |a|
  {
    if a == [] {
      assert a + b == b;
      var y := Substitute(params, b);
      if y.Ok? {
        assert [] + y.value.0 == y.value.0 && [] + y.value.1 == y.value.1;
      }
    } else {
      assert a + b == [a[0]] + (a[1..] + b);
      assert a == [a[0]] + a[1..];
      SubstituteCons(params, a[0], a[1..] + b);
      SubstituteCons(params, a[0], a[1..]);
      SubstituteAppend(params, a[1..], b);
      JoinAssoc(SpliceSegment(params, a[0]), Substitute(params, a[1..]), Substitute(params, b));
    }
  }

  /** A set placeholder inside a string contributes its parameter cast to a string. */
  lemma SubstituteSetPlaceholder(params: Parameters, a: seq<Placeholders.Segment>, name: string,
                                 b: seq<Placeholders.Segment>)
    requires GetParam(params, name).1
    ensures Substitute(params, a + [Placeholders.Placeholder(name)] + b)
         == Join(Join(Substitute(params, a), StringCast(params[name])), Substitute(params, b))
  {
    var p := [Placeholders.Placeholder(name)];
    SubstituteAppend(params, a + p, b);
    SubstituteAppend(params, a, p);
    assert p[1..] == [];
    var c := StringCast(params[name]);
    if c.Ok? {
      assert c.value.0 + [] == c.value.0 && c.value.1 + [] == c.value.1;
    }
  }

  /** How many placeholders the segments hold. */
  function PlaceholderCount(segs: seq<Placeholders.Segment>): nat {
    if segs == [] then 0 else (if segs[0].Placeholder? then 1 else 0) + PlaceholderCount(segs[1..])
  }

  /** No placeholder names a set parameter. */
  predicate NoneSet(params: Parameters, segs: seq<Placeholders.Segment>) {
    forall i :: 0 <= i < |segs| && segs[i].Placeholder? ==> !GetParam(params, segs[i].name).1
  }

  /** When no placeholder is set, the text comes back unchanged, one warning per placeholder. */
  lemma {:induction false} SubstituteUnsetKeepsText(params: Parameters, segs: seq<Placeholders.Segment>)
    requires NoneSet(params, segs)
    ensures Substitute(params, segs).Ok?
    ensures Substitute(params, segs).value.0 == Placeholders.Render(segs)
    ensures |Substitute(params, segs).value.1| == PlaceholderCount(segs)
    ensures forall i :: 0 <= i < |Substitute(params, segs).value.1| ==> Substitute(params, segs).value.1[i].ParameterNotSet?
  {
    if segs != [] {
      assert NoneSet(params, segs[1..]) by {
        forall i | 0 <= i < |segs[1..]| && segs[1..][i].Placeholder?
          ensures !GetParam(params, segs[1..][i].name).1
        {
          assert segs[1..][i] == segs[i + 1];
        }
      }
      SubstituteUnsetKeepsText(params, segs[1..]);
    }
  }

  /**
   * The PARAMETERS argument handler: a string that is one whole placeholder becomes the
   * parameter's value itself (null when it is not set, without a warning); otherwise each
   * placeholder inside the string is replaced by its parameter as a string, and an unset
   * one is kept as written and warned about. Values other than strings pass through.
   */
  function ApplyParameters(params: Parameters, v: Value): (r: Result<(Value, seq<Event>)>)
    ensures !v.StrV? ==> r == Ok((v, []))
  {
    if !v.StrV? then Ok((v, []))
    else
      match Placeholders.WholePlaceholder(v.s)
      case Some(name) => Ok((GetParam(params, name).0, []))
      case None =>
        var sub := Substitute(params, Placeholders.Scan(v.s));
        if sub.Err? then Err(sub.error) else Ok((StrV(sub.value.0), sub.value.1))
  }

  /** A string without '%' passes the PARAMETERS handler unchanged and silently. */
  lemma ApplyParametersPlainString(params: Parameters, s: string)
    requires '%' !in s
    ensures ApplyParameters(params, StrV(s)) == Ok((StrV(s), []))
  {
    var segs := Placeholders.Scan(s);
    Placeholders.NoPercentNoPlaceholder(s);
    SubstituteUnsetKeepsText(params, segs);
    Placeholders.RenderScan(s);
    assert Placeholders.WholePlaceholder(s).None? by {
      if |s| > 0 { assert s[0] in s; }
    }
    NoPlaceholderCountsZero(segs);
  }

  /**
   * A string that is not one whole placeholder and names no set parameter passes the
   * PARAMETERS handler unchanged, with one not-set warning per placeholder.
   */
  lemma ApplyParametersUnset(params: Parameters, s: string)
    requires Placeholders.WholePlaceholder(s).None? && NoneSet(params, Placeholders.Scan(s))
    ensures ApplyParameters(params, StrV(s)).Ok? && ApplyParameters(params, StrV(s)).value.0 == StrV(s)
    ensures |ApplyParameters(params, StrV(s)).value.1| == PlaceholderCount(Placeholders.Scan(s))
    ensures forall i :: 0 <= i < |ApplyParameters(params, StrV(s)).value.1| ==>
              ApplyParameters(params, StrV(s)).value.1[i].ParameterNotSet?
  {
    SubstituteUnsetKeepsText(params, Placeholders.Scan(s));
    Placeholders.RenderScan(s);
  }

  lemma {:induction false} NoPlaceholderCountsZero(segs: seq<Placeholders.Segment>)
    requires forall i :: 0 <= i < |segs| ==> segs[i].Lit?
    ensures PlaceholderCount(segs) == 0
  {
    if segs != [] {
      assert forall i :: 0 <= i < |segs[1..]| ==> segs[1..][i] == segs[i + 1];
      NoPlaceholderCountsZero(segs[1..]);
    }
  }

  /** A whole placeholder yields the parameter's own value, whatever its type. */
  lemma WholePlaceholderGivesValue(params: Parameters, name: string)
    requires '\n' !in name
    ensures ApplyParameters(params, StrV("%" + name + "%")) == Ok((GetParam(params, name).0, []))
  {
    Placeholders.WholePlaceholderComplete(name, false);
    assert "%" + name + "%" + "" == "%" + name + "%";
  }

  /** "%a%-x" with parameter a = 5 becomes "5-x". */
  lemma PlaceholderInsideString()
    ensures ApplyParameters(map["a" := IntV(5)], StrV("%a%-x")) == Ok((StrV("5-x"), []))
  {
    var s := "%a%-x";
    assert Placeholders.WholePlaceholder(s).None? by { assert s[|s| - 1] == 'x'; }
    assert s[1..] == "a%-x" && s[1..2] == "a" && s[3..] == "-x";
    assert Placeholders.ClosingPercent("a%-x") == Some(1) by {
      assert "a%-x"[1..] == "%-x";
    }
    assert "-x"[1..] == "x" && "x"[1..] == "";
    var segs := [Placeholders.Placeholder("a"), Placeholders.Lit('-'), Placeholders.Lit('x')];
    assert Placeholders.Scan(s) == segs;
    assert IntToString(5) == "5";
    var params := map["a" := IntV(5)];
    assert GetParam(params, "a") == (IntV(5), true);
    assert Splice(params, "a") == Ok(("5", []));
    var tail := [Placeholders.Lit('-'), Placeholders.Lit('x')];
    assert segs[1..] == tail && tail[1..] == [Placeholders.Lit('x')];
    assert [Placeholders.Lit('x')][1..] == [];
    var none: seq<Event> := [];
    assert Substitute(params, []) == Ok(([], none));
    assert Substitute(params, [Placeholders.Lit('x')]) == Ok((['x'] + [], none + none));
    assert ['x'] + [] == "x" && none + none == none;
    assert "-" + "x" == "-x" && "5" + "-x" == "5-x";
    assert Substitute(params, tail) == Ok(("-x", []));
    assert Substitute(params, segs) == Ok(("5-x", []));
  }

  // ---------------------------------------------------------------------------
  // Constructor-argument templates
  // ---------------------------------------------------------------------------

  /**
   * The argument list built from a constructor-aware class's template: entry i keeps the
   * template's value, and a null entry takes the configured argument stored under the
   * template entry's key (or null).
   */
  function Merged(template: seq<(Key, Value)>, arguments: Value): (args: seq<(Key, Value)>)
    ensures |args| == |template|
    ensures forall i :: 0 <= i < |template| ==> args[i].0 == IntKey(i)
    ensures forall i :: 0 <= i < |template| && template[i].1 != Null ==> args[i].1 == template[i].1
    ensures forall i :: 0 <= i < |template| && template[i].1 == Null ==> args[i].1 == Lookup(arguments, template[i].0)
  {
    seq(|template|, i requires 0 <= i < |template| =>
      (IntKey(i), if template[i].1 == Null then Lookup(arguments, template[i].0) else template[i].1))
  }

  /** The loop of makeServiceInstance that builds the argument list from a template. */
  method MergeTemplate(template: seq<(Key, Value)>, arguments: Value) returns (args: seq<(Key, Value)>)
    ensures args == Merged(template, arguments)
  {
    args := [];
    var i := 0;
    while i < |template|
      invariant 0 <= i <= |template|
      invariant args == Merged(template, arguments)[..i]
    {
      var (name, value) := template[i];
      args := args + [(IntKey(i), if value == Null then Lookup(arguments, name) else value)];
      i := i + 1;
    }
  }

  /**
   * The template of MockServiceArgumentedAware, `[17, '$testService', 'bool' => NULL]`,
   * with configured arguments `['bool' => true]`: explicit entries stay, the null entry
   * is filled by name, and the keys are renumbered.
   */
  lemma MergedTemplateExample()
    ensures Merged([(IntKey(0), IntV(17)), (IntKey(1), StrV("$testService")), (StrKey("bool"), Null)],
                   Arr([(StrKey("bool"), BoolV(true))]))
         == [(IntKey(0), IntV(17)), (IntKey(1), StrV("$testService")), (IntKey(2), BoolV(true))]
  {
  }

  /** What makeServiceInstance passes on after the template step. */
  function Prepared(info: Option<ClassInfo>, arguments: Value): Value {
    if info.Some? && info.value.template.Some? && info.value.template.value != [] then
      Arr(Merged(info.value.template.value, arguments))
    else
      arguments
  }

  /** What a mapped argument may become: arrays stay arrays of the same size, non-strings stay. */
  predicate KeptShape(before: Value, after: Value) {
    && (before.Arr? ==> after.Arr? && |after.entries| == |before.entries|)
    && (!before.Arr? && !before.StrV? ==> after == before)
    && (before.StrV? && '%' !in before.s && Placeholders.ServiceReference(before.s).None? ==> after == before)
  }

  /** An array mapped entry by entry: same keys in the same order, each value kept in shape. */
  predicate MappedFrom(before: seq<(Key, Value)>, after: Value) {
    && after.Arr? && |after.entries| == |before|
    && forall i :: 0 <= i < |before| ==> after.entries[i].0 == before[i].0 && KeptShape(before[i].1, after.entries[i].1)
  }

  // ---------------------------------------------------------------------------
  // Class matching and options
  // ---------------------------------------------------------------------------

  /** `in_array($className, $classNames)` where a null class name equals only "". */
  predicate NamedIn(cls: Option<string>, classNames: seq<string>) {
    exists i :: 0 <= i < |classNames| && classNames[i] == (if cls.Some? then cls.value else "")
  }

  /** `is_subclass_of($className, $cn)` for some requested cn. */
  predicate SubclassOfAny(table: ClassTable, cls: Option<string>, classNames: seq<string>) {
    cls.Some? && cls.value in table && exists i :: 0 <= i < |classNames| && classNames[i] in table[cls.value].ancestors
  }

  /** The `$matchClass` closure of yieldServices. */
  method MatchClass(table: ClassTable, cls: Option<string>, classNames: seq<string>, includeSubclasses: bool)
    returns (b: bool)
    ensures b <==> NamedIn(cls, classNames) || (includeSubclasses && SubclassOfAny(table, cls, classNames))
  {
    var name := if cls.Some? then cls.value else "";
    if name in classNames {
      return true;
    }
    if includeSubclasses && cls.Some? && cls.value in table {
      var ancestors := table[cls.value].ancestors;
      var i := 0;
      while i < |classNames|
        invariant 0 <= i <= |classNames|
        invariant forall j :: 0 <= j < i ==> classNames[j] !in ancestors
      {
        if classNames[i] in ancestors {
          return true;
        }
        i := i + 1;
      }
    }
    return false;
  }

  function Pow2(k: nat): (p: nat)
    ensures p >= 1
  {
    if k == 0 then 1 else 2 * Pow2(k - 1)
  }

  /** `($options & 2**k) != 0` on a two's-complement integer. */
  predicate Bit(options: int, k: nat) {
    (options / Pow2(k)) % 2 == 1
  }

  const OptionRecursiveSubclassSearch: nat := 0   // bit of OPTION_RECURSIVE_SUBCLASS_SEARCH = 1
  const OptionForceClassDetection: nat := 1       // bit of OPTION_FORCE_CLASS_DETECTION = 2
  const OptionReturnPromises: nat := 2            // bit of OPTION_RETURN_PROMISES = 4

  /** `~OPTION_RETURN_PROMISES` (-5) keeps the other two options and clears promises. */
  lemma ComplementClearsOneBit()
    ensures Bit(-5, 0) && Bit(-5, 1) && !Bit(-5, 2)
  {
    assert Pow2(1) == 2 && Pow2(2) == 4;
  }

  // ---------------------------------------------------------------------------
  // The manager yielding itself
  // ---------------------------------------------------------------------------

  /** The key under which the manager yields itself for a class query. */
  function SelfKey(selfNames: seq<string>): string {
    if selfNames != [] then selfNames[0] else "serviceManager"
  }

  /** One self-yield per requested class that the manager is an instance of. */
  function SelfClassYields(classNames: seq<string>, key: string): (keys: seq<Option<string>>)
    ensures |keys| <= |classNames|
    ensures forall i :: 0 <= i < |keys| ==> keys[i] == Some(key)
  {
    if classNames == [] then []
    else (if ManagerIsA(classNames[0]) then [Some(key)] else []) + SelfClassYields(classNames[1..], key)
  }

  /** The first requested name that is a self-reference name. */
  function FirstSelfName(serviceNames: seq<string>, selfNames: seq<string>): (r: Option<string>)
    ensures r.Some? ==> r.value in serviceNames && r.value in selfNames
    ensures r.None? <==> forall i :: 0 <= i < |serviceNames| ==> serviceNames[i] !in selfNames
  {
    if serviceNames == [] then None
    else if serviceNames[0] in selfNames then Some(serviceNames[0])
    else FirstSelfName(serviceNames[1..], selfNames)
  }

  /**
   * The self-yields of yieldServices as written: for a name query the key is
   * `array_intersect(...)[0]`, which exists only when the FIRST requested name is a
   * self-reference name; otherwise the key is null and reading it raises a notice.
   */
  function SelfYieldsAsWritten(serviceNames: seq<string>, classNames: seq<string>, selfNames: seq<string>)
    : (r: (seq<Option<string>>, seq<Event>))
    ensures classNames == [] && FirstSelfName(serviceNames, selfNames).Some? ==> |r.0| == 1
  {
    if classNames != [] then (SelfClassYields(classNames, SelfKey(selfNames)), [])
    else if FirstSelfName(serviceNames, selfNames).Some? then
      if serviceNames[0] in selfNames then ([Some(serviceNames[0])], [])
      else ([None], [UndefinedIndex("0")])
    else ([], [])
  }

  /** The self-yields as intended: the first requested self-reference name is the key. */
  function SelfYields(serviceNames: seq<string>, classNames: seq<string>, selfNames: seq<string>)
    : (r: (seq<Option<string>>, seq<Event>))
    ensures r.1 == []
    ensures classNames == [] ==> (|r.0| == 1 <==> exists i :: 0 <= i < |serviceNames| && serviceNames[i] in selfNames)
    ensures classNames == [] ==> forall i :: 0 <= i < |r.0| ==> r.0[i].Some? && r.0[i].value in serviceNames && r.0[i].value in selfNames
  {
    if classNames != [] then (SelfClassYields(classNames, SelfKey(selfNames)), [])
    else
      match FirstSelfName(serviceNames, selfNames)
      case Some(name) => ([Some(name)], [])
      case None => ([], [])
  }

  /** Where the two agree: the first requested name is a self name, or no name is. */
  lemma SelfYieldsAgreeWhenFirstIsSelf(serviceNames: seq<string>, classNames: seq<string>, selfNames: seq<string>)
    requires classNames != [] || serviceNames == [] || serviceNames[0] in selfNames
             || FirstSelfName(serviceNames, selfNames).None?
    ensures SelfYieldsAsWritten(serviceNames, classNames, selfNames) == SelfYields(serviceNames, classNames, selfNames)
  {
  }

  /**
   * Asking for `['logger', 'serviceManager']`: the code yields the manager under a null
   * key with a notice, where the first requested self name was meant.
   */
  lemma SelfYieldsDiscrepancy()
    ensures SelfYieldsAsWritten(["logger", "serviceManager"], [], ["serviceManager", "SERVICES"])
         == ([None], [UndefinedIndex("0")])
    ensures SelfYields(["logger", "serviceManager"], [], ["serviceManager", "SERVICES"])
         == ([Some("serviceManager")], [])
  {
    var names := ["logger", "serviceManager"];
    var selfNames := ["serviceManager", "SERVICES"];
    assert names[1..] == ["serviceManager"];
    assert FirstSelfName(names[1..], selfNames) == Some("serviceManager");
    assert names[0] !in selfNames;
  }

  // ---------------------------------------------------------------------------
  // Service objects and containers
  // ---------------------------------------------------------------------------

  /** How a service object was constructed. */
  datatype Construction =
    | Positional(args: seq<Value>)            // new C(...$arguments)
    | WithManager(arguments: Value)           // new C($arguments, $serviceManager)
    | FromScript(file: string, arguments: Value)
    | Plain                                   // created by code outside the manager

  /** An object created as (or for) a service. */
  class ServiceObject {
    const cls: string
    const made: Construction
    /** What setConfiguration() received; null until it is called. */
    var configuration: Value

    constructor (cls: string, made: Construction)
      ensures this.cls == cls && this.made == made && configuration == Null
    {
      this.cls := cls;
      this.made := made;
      configuration := Null;
    }
  }

  /** get_class(): the class of an object, none for any other value. */
  function ClassOf(v: Value): (r: Option<string>)
    ensures r.Some? <==> IsObject(v)
  {
    match v
    case Obj(o) => Some(o.cls)
    case Cont(c) => Some(c.ClassName())
    case Manager => Some(ManagerClass)
    case _ => None
  }

  /** `if (!$this->instance) $this->instance = $inst;` after loadInstance. */
  function AfterLoad(current: Value, returned: Value): (r: Value)
    ensures Truthy(current) ==> r == current
    ensures !Truthy(current) ==> r == returned
  {
    if Truthy(current) then current else returned
  }

  /**
   * `new $className(...)` in makeServiceInstance: a static-constructor class gets the
   * arguments and the manager, any other class the argument values; a container class
   * becomes a fresh container.
   */
  method Instantiate(cls: string, ci: ClassInfo, args: Value) returns (r: Result<Value>)
    ensures r.Ok? ==> ClassOf(r.value) == Some(cls) && (r.value.Obj? || r.value.Cont?)
    ensures r.Ok? ==> (r.value.Cont? <==> ci.container.Some?)
    ensures r.Ok? && r.value.Cont? ==>
              fresh(r.value.c) && r.value.c.kind == CustomKind(cls, ci.container.value) && r.value.c.instance == Null
    ensures r.Ok? && r.value.Obj? ==>
              fresh(r.value.o) && r.value.o.configuration == Null
              && r.value.o.made == (if ci.staticConstruction then WithManager(args)
                                    else Positional(if args.Arr? then Values(args.entries) else []))
    ensures r.Err? <==> ci.container.None? && !ci.staticConstruction
                        && |if args.Arr? then Values(args.entries) else []| < ci.requiredArgs
    ensures r.Err? ==> r.error == TooFewArguments(cls)
  {
    if ci.container.Some? {
      var c := new Container.Custom(cls, ci.container.value);
      return Ok(Cont(c));
    }
    if ci.staticConstruction {
      var o := new ServiceObject(cls, WithManager(args));
      return Ok(Obj(o));
    }
    var positional := if args.Arr? then Values(args.entries) else [];
    if |positional| < ci.requiredArgs {
      return Err(TooFewArguments(cls));
    }
    var o := new ServiceObject(cls, Positional(positional));
    return Ok(Obj(o));
  }

  /** The four container classes. */
  datatype ContainerKind =
    | StaticKind(held: Value)                                      // StaticContainer
    | CallbackKind(callback: Factory)                              // CallbackContainer
    | ConfiguredKind(serviceName: string, config: seq<(Key, Value)>) // ConfiguredServiceContainer
    | CustomKind(cls: string, behaviour: ContainerClass)           // a user subclass of AbstractContainer

  /** A container of a user class, or none (the intermediate slot of a configured container). */
  type UserContainer = c: Container? | c == null || c.kind.CustomKind?

  /** A service container: holds or creates one service instance. */
  class Container {
    const kind: ContainerKind
    /** AbstractContainer's `$instance`; a static container keeps its object in `kind`. */
    var instance: Value
    /** ConfiguredServiceContainer's `$containerInstance`. */
    var intermediate: UserContainer
    /** What setConfiguration() gave a user container class; null until then. */
    var configuration: Value

    constructor Static(v: Value)
      ensures kind == StaticKind(v) && instance == Null && intermediate == null && configuration == Null
    {
      kind := StaticKind(v);
      instance := Null;
      intermediate := null;
      configuration := Null;
    }

    constructor Callback(f: Factory)
      ensures kind == CallbackKind(f) && instance == Null && intermediate == null && configuration == Null
    {
      kind := CallbackKind(f);
      instance := Null;
      intermediate := null;
      configuration := Null;
    }

    constructor Configured(name: string, config: seq<(Key, Value)>)
      ensures kind == ConfiguredKind(name, config) && instance == Null && intermediate == null && configuration == Null
    {
      kind := ConfiguredKind(name, config);
      instance := Null;
      intermediate := null;
      configuration := Null;
    }

    constructor Custom(cls: string, behaviour: ContainerClass)
      ensures kind == CustomKind(cls, behaviour) && instance == Null && intermediate == null && configuration == Null
    {
      kind := CustomKind(cls, behaviour);
      instance := Null;
      intermediate := null;
      configuration := Null;
    }

    /**
     * ConfiguredServiceContainer's constructor: refuses a configuration in which none of
     * class, file and container is set.
     */
    static method NewConfigured(name: string, config: seq<(Key, Value)>) returns (r: Result<Container>)
      ensures r.Ok? <==> Instantiable(config)
      ensures r.Err? ==> r.error == BadConfiguration(Arr(config), Some(name))
      ensures r.Ok? ==> fresh(r.value) && r.value.kind == ConfiguredKind(name, config)
                        && r.value.instance == Null && r.value.intermediate == null
    {
      if !Instantiable(config) {
        return Err(BadConfiguration(Arr(config), Some(name)));
      }
      var c := new Container.Configured(name, config);
      return Ok(c);
    }

    /** What getInstance returns once loaded. */
    function Instance(): (v: Value)
      reads this
      ensures kind.StaticKind? ==> v == kind.held
      ensures !kind.StaticKind? ==> v == instance
    {
      if kind.StaticKind? then kind.held else instance
    }

    /** isInstanceLoaded(): the instance is truthy. */
    function IsLoaded(): (b: bool)
      reads this
      ensures kind.StaticKind? && IsObject(kind.held) ==> b
      ensures !kind.StaticKind? ==> (b <==> Truthy(instance))
    {
      Truthy(Instance())
    }

    function ClassName(): string {
      match kind
      case StaticKind(_) => StaticContainerClass
      case CallbackKind(_) => CallbackContainerClass
      case ConfiguredKind(_, _) => ConfiguredContainerClass
      case CustomKind(cls, _) => cls
    }

    /** The container implements ServiceAwareContainerInterface. */
    /**
     * The class the intermediate container of a configured container reports: the one
     * kept, else the one the container key would build from the class table; none when
     * there is no intermediate or it is not service-aware.
     */
    function IntermediateReport(table: ClassTable): Option<string>
      reads this
    {
      if !kind.ConfiguredKind? then None
      else if intermediate != null then intermediate.kind.behaviour.reports
      else if Setting(kind.config, ContainerKey) == Null then None
      else match StringParam(Setting(kind.config, ContainerKey))
        case Ok(cls) => if cls in table && table[cls].container.Some? then table[cls].container.value.reports else None
        case Err(_) => None
    }

    predicate IsServiceAware() {
      kind.ConfiguredKind? || (kind.CustomKind? && kind.behaviour.reports.Some?)
    }

    /** getInstance() of a user container class; its loadInstance needs nothing from the manager. */
    method GetUserInstance() returns (r: Result<Value>)
      requires kind.CustomKind?
      modifies this
      ensures r.Ok? ==> r.value == instance
      ensures old(IsLoaded()) ==> r == Ok(old(instance)) && unchanged(this)
      ensures !old(IsLoaded()) ==>
        match kind.behaviour.load
        case AssignsNew(cls) => r.Ok? && r.value.Obj? && fresh(r.value.o) && r.value.o.cls == cls
        case ReturnsNew(cls) => r.Ok? && r.value.Obj? && fresh(r.value.o) && r.value.o.cls == cls
        case ReturnsItself => r == Ok(Cont(this))
        case ReturnsNothing => r == Ok(Null)
        case RaisesBadConfiguration => r == Err(BadConfiguration(Null, None))
      ensures intermediate == old(intermediate) && configuration == old(configuration)
    {
      if !IsLoaded() {
        var load := kind.behaviour.load;
        var returned := Null;
        if load.AssignsNew? {
          var o := new ServiceObject(load.cls, Plain);
          instance := Obj(o);
        } else if load.ReturnsNew? {
          var o := new ServiceObject(load.cls, Plain);
          returned := Obj(o);
        } else if load.ReturnsItself? {
          returned := Cont(this);
        } else if load.RaisesBadConfiguration? {
          return Err(BadConfiguration(Null, None));
        }
        instance := AfterLoad(instance, returned);
      }
      return Ok(instance);
    }

    /**
     * getInstance(): a static container returns its object; any other container loads
     * its instance once, when it is not loaded yet, and then returns the stored instance.
     */
    method GetInstance(mgr: ServiceManager, fuel: nat) returns (r: Result<Value>)
      requires mgr.Valid() && this in mgr.Repr
      modifies mgr, mgr.Repr
      decreases fuel, 8, 0
      ensures mgr.Evolved()
      ensures r.Ok? ==> r.value == Instance()
      ensures old(IsLoaded()) ==> r == Ok(old(Instance())) && unchanged(mgr) && unchanged(mgr.Repr)
      ensures kind.StaticKind? ==> r == Ok(kind.held) && unchanged(mgr) && unchanged(mgr.Repr)
      ensures kind.CallbackKind? && !old(IsLoaded()) ==>
        match kind.callback
        case MakesNew(cls) => r.Ok? && r.value.Obj? && fresh(r.value.o) && r.value.o.cls == cls
        case Returns(v) => r == Ok(if Truthy(v) then v else Null)
        case Fails => r == Err(CallbackFailed)
      ensures kind.ConfiguredKind? && !old(IsLoaded()) && r.Ok? ==>
                (Truthy(r.value) <==> Strategy(kind.config).Some?)
      ensures kind.ConfiguredKind? && !old(IsLoaded()) && Strategy(kind.config).None? ==>
                r == Ok(BoolV(false)) && unchanged(mgr) && unchanged(mgr.Repr - {this})
      ensures kind.ConfiguredKind? && !old(IsLoaded()) && r.Ok? && Strategy(kind.config) == Some(ClassKey) ==>
                StringParam(Setting(kind.config, ClassKey)).Ok?
                && ClassOf(r.value) == Some(StringParam(Setting(kind.config, ClassKey)).value)
    {
      match kind
      case StaticKind(held) =>
        return Ok(held);
      case CustomKind(_, _) =>
        r := GetUserInstance();
      case _ =>
        if !IsLoaded() {
          var returned :- LoadInstance(mgr, fuel);
          instance := AfterLoad(instance, returned);
        }
        return Ok(instance);
    }

    /**
     * loadInstance() of the callback and the configured container. The callback
     * container stores the callback's result; the configured container uses the first
     * truthy of class, container and file and returns whether it found one.
     */
    method LoadInstance(mgr: ServiceManager, fuel: nat) returns (r: Result<Value>)
      requires kind.CallbackKind? || kind.ConfiguredKind?
      requires mgr.Valid() && this in mgr.Repr
      modifies mgr, mgr.Repr
      decreases fuel, 7, 0
      ensures mgr.Evolved()
      ensures kind.CallbackKind? ==> unchanged(mgr) && unchanged(mgr.Repr - {this})
      ensures kind.CallbackKind? ==>
        match kind.callback
        case MakesNew(cls) => r == Ok(Null) && instance.Obj? && fresh(instance.o) && instance.o.cls == cls
        case Returns(v) => r == Ok(Null) && instance == v
        case Fails => r == Err(CallbackFailed) && instance == old(instance)
      ensures kind.ConfiguredKind? && r.Ok? ==> r.value == BoolV(Strategy(kind.config).Some?)
      ensures kind.ConfiguredKind? && Strategy(kind.config).None? ==>
                r == Ok(BoolV(false)) && unchanged(mgr) && unchanged(mgr.Repr)
      ensures kind.ConfiguredKind? && r.Ok? && Strategy(kind.config) in {Some(ClassKey), Some(FileKey)} ==>
                IsObject(instance)
      ensures kind.ConfiguredKind? && r.Ok? && Strategy(kind.config) == Some(ClassKey) ==>
                StringParam(Setting(kind.config, ClassKey)).Ok?
                && ClassOf(instance) == Some(StringParam(Setting(kind.config, ClassKey)).value)
    {
      if kind.CallbackKind? {
        var f := kind.callback;
        if f.MakesNew? {
          var o := new ServiceObject(f.cls, Plain);
          instance := Obj(o);
        } else if f.Returns? {
          instance := f.v;
        } else {
          return Err(CallbackFailed);
        }
        return Ok(Null);
      }
      var strategy := Strategy(kind.config);
      if strategy == Some(ClassKey) {
        var done :- LoadFromClass(mgr, Setting(kind.config, ClassKey), fuel);
        return Ok(BoolV(true));
      } else if strategy == Some(ContainerKey) {
        var done :- LoadFromContainer(mgr, Setting(kind.config, ContainerKey), fuel);
        return Ok(BoolV(true));
      } else if strategy == Some(FileKey) {
        var done :- LoadFromFile(mgr, Setting(kind.config, FileKey));
        return Ok(BoolV(true));
      }
      return Ok(BoolV(false));
    }

    /** loadInstanceFromClass(): the manager makes the instance from the configuration. */
    method LoadFromClass(mgr: ServiceManager, clsValue: Value, fuel: nat) returns (r: Result<()>)
      requires kind.ConfiguredKind?
      requires mgr.Valid() && this in mgr.Repr
      modifies mgr, mgr.Repr
      decreases fuel, 5, 0
      ensures mgr.Evolved()
      ensures r.Ok? ==> StringParam(clsValue).Ok? && ClassOf(instance) == Some(StringParam(clsValue).value)
      ensures r.Ok? ==>
                var cls := StringParam(clsValue).value;
                var args := Setting(kind.config, ArgumentsKey);
                var cfg := Setting(kind.config, ConfigurationKey);
                cls in mgr.table && (instance.Cont? <==> mgr.table[cls].container.Some?)
                && (instance.Obj? ==>
                      (instance.o.made.WithManager? <==> mgr.table[cls].staticConstruction)
                      && (instance.o.configuration != Null <==> Truthy(cfg) && mgr.table[cls].configurable)
                      && (Truthy(cfg) && mgr.table[cls].configurable ==> MappedFrom(MakeArray(cfg), instance.o.configuration))
                      && (!Truthy(Prepared(Some(mgr.table[cls]), args)) ==>
                            instance.o.made == (if mgr.table[cls].staticConstruction then WithManager(args) else Positional([])))
                      && (Truthy(Prepared(Some(mgr.table[cls]), args)) && mgr.table[cls].staticConstruction ==>
                            MappedFrom(MakeArray(Prepared(Some(mgr.table[cls]), args)), instance.o.made.arguments)))
    {
      var cls :- StringParam(clsValue);
      var made :- mgr.MakeServiceInstance(cls, Setting(kind.config, ArgumentsKey),
                                          Setting(kind.config, ConfigurationKey), fuel);
      instance := made;
      return Ok(());
    }

    /**
     * loadIntermediateContainerInstance(): the manager makes an object of the named class,
     * which must be a container; every failure is reported as a bad container.
     */
    method LoadIntermediate(mgr: ServiceManager, clsValue: Value, fuel: nat) returns (r: Result<Container>)
      requires kind.ConfiguredKind?
      requires mgr.Valid() && this in mgr.Repr
      modifies mgr, mgr.Repr
      decreases fuel, 5, 0
      ensures mgr.Evolved()
      ensures r.Ok? ==> fresh(r.value) && r.value in mgr.Repr && r.value.kind.CustomKind?
                        && StringParam(clsValue) == Ok(r.value.kind.cls)
                        && r.value.kind.cls in mgr.table && mgr.table[r.value.kind.cls].container == Some(r.value.kind.behaviour)
      ensures r.Err? ==> r.error == NestingLimit || (r.error.BadContainer? && r.error.service == kind.serviceName)
    {
      var cls := StringParam(clsValue);
      if cls.Err? {
        return Err(BadContainer(kind.serviceName, cls.error));
      }
      var made := mgr.MakeServiceInstance(cls.value, Setting(kind.config, ArgumentsKey),
                                          Setting(kind.config, ConfigurationKey), fuel);
      if made.Err? {
        if made.error == NestingLimit {
          return Err(NestingLimit);
        }
        return Err(BadContainer(kind.serviceName, made.error));
      }
      if !made.value.Cont? {
        return Err(BadContainer(kind.serviceName, NotAContainer(cls.value)));
      }
      return Ok(made.value.c);
    }

    /**
     * loadInstanceFromContainer(): keeps the intermediate container and takes its
     * instance; a bad configuration reported by it is rethrown for this service.
     */
    method LoadFromContainer(mgr: ServiceManager, clsValue: Value, fuel: nat) returns (r: Result<()>)
      requires kind.ConfiguredKind?
      requires mgr.Valid() && this in mgr.Repr
      modifies mgr, mgr.Repr
      decreases fuel, 6, 0
      ensures mgr.Evolved()
      ensures r.Ok? ==> intermediate != null && instance == intermediate.instance
    {
      var ci :- LoadIntermediate(mgr, clsValue, fuel);
      intermediate := ci;
      var v := ci.GetUserInstance();
      if v.Err? {
        if v.error.BadConfiguration? {
          return Err(Rewrapped(kind.serviceName, v.error));
        }
        return Err(v.error);
      }
      instance := v.value;
      return Ok(());
    }

    /**
     * loadInstanceFromFile(): the file must exist and its script must return an object,
     * which becomes the instance; the raw configuration is applied when it is truthy.
     */
    method LoadFromFile(mgr: ServiceManager, fileValue: Value) returns (r: Result<()>)
      requires kind.ConfiguredKind?
      modifies this
      ensures r.Ok? ==> IsObject(instance)
      ensures StringParam(fileValue).Ok? && StringParam(fileValue).value !in mgr.files ==>
                r == Err(FileNotFound(kind.serviceName, StringParam(fileValue).value))
      ensures StringParam(fileValue).Ok? && StringParam(fileValue).value in mgr.files ==>
                match mgr.files[StringParam(fileValue).value]
                case ScriptObject(cls) =>
                  r.Ok? && instance.Obj? && fresh(instance.o) && instance.o.cls == cls
                  && instance.o.made == FromScript(StringParam(fileValue).value, Setting(kind.config, ArgumentsKey))
                  && instance.o.configuration
                     == (var cfg := Setting(kind.config, ConfigurationKey);
                         if cls in mgr.table && mgr.table[cls].configurable && Truthy(cfg) then cfg else Null)
                case ScriptValue(v) =>
                  (IsObject(v) ==> r.Ok? && instance == v)
                  && (!IsObject(v) ==> r == Err(InvalidService(kind.serviceName, v)))
      ensures intermediate == old(intermediate)
    {
      var path :- StringParam(fileValue);
      if path !in mgr.files {
        return Err(FileNotFound(kind.serviceName, path));
      }
      var script := mgr.files[path];
      if script.ScriptObject? {
        var cls := script.cls;
        var o := new ServiceObject(cls, FromScript(path, Setting(kind.config, ArgumentsKey)));
        instance := Obj(o);
        var cfg := Setting(kind.config, ConfigurationKey);
        if cls in mgr.table && mgr.table[cls].configurable && Truthy(cfg) {
          o.configuration := cfg;
        }
      } else {
        if !IsObject(script.v) {
          return Err(InvalidService(kind.serviceName, script.v));
        }
        instance := script.v;
      }
      return Ok(());
    }

    /**
     * getServiceClass() of a service-aware container. A user class reports its fixed
     * answer. The configured container answers from the loaded instance, else from the
     * class key, else from the type key, else from a service-aware intermediate
     * container (built when the container key is set), and as a last resort loads the
     * instance and reports its class, or "" when it is no object.
     */
    method GetServiceClass(mgr: ServiceManager, fuel: nat) returns (r: Result<string>)
      requires IsServiceAware()
      requires mgr.Valid() && this in mgr.Repr
      modifies mgr, mgr.Repr
      ensures mgr.Evolved()
      ensures kind.CustomKind? ==> r == Ok(kind.behaviour.reports.value) && unchanged(mgr) && unchanged(mgr.Repr)
      ensures kind.ConfiguredKind? && old(IsLoaded()) ==>
                mgr.Repr == old(mgr.Repr) && unchanged(old(mgr.Repr)) && mgr.Settings() == old(mgr.Settings())
                && (IsObject(instance) ==> r == Ok(ClassOf(instance).value) && mgr.events == old(mgr.events))
                && (!IsObject(instance) ==> r == Ok("") && mgr.events == old(mgr.events) + [GetClassOnNonObject])
      ensures kind.ConfiguredKind? && !old(IsLoaded()) && Truthy(Setting(kind.config, ClassKey)) ==>
                r == StringParam(Setting(kind.config, ClassKey)) && unchanged(mgr) && unchanged(mgr.Repr)
      ensures kind.ConfiguredKind? && !old(IsLoaded()) && !Truthy(Setting(kind.config, ClassKey))
              && Truthy(Setting(kind.config, TypeKey)) ==>
                r == StringParam(Setting(kind.config, TypeKey)) && unchanged(mgr) && unchanged(mgr.Repr)
      ensures kind.ConfiguredKind? && !old(IsLoaded()) && !Truthy(Setting(kind.config, ClassKey))
              && !Truthy(Setting(kind.config, TypeKey)) && old(intermediate) != null
              && old(intermediate).kind.behaviour.reports.Some? ==>
                r == Ok(old(intermediate).kind.behaviour.reports.value) && unchanged(mgr) && unchanged(mgr.Repr)
      ensures kind.ConfiguredKind? && !old(IsLoaded()) && !Truthy(Setting(kind.config, ClassKey))
              && !Truthy(Setting(kind.config, TypeKey)) && old(IntermediateReport(mgr.table)).Some? && r.Ok? ==>
                r.value == old(IntermediateReport(mgr.table)).value
      ensures kind.ConfiguredKind? && !old(IsLoaded()) && !Truthy(Setting(kind.config, ClassKey))
              && !Truthy(Setting(kind.config, TypeKey)) && old(IntermediateReport(mgr.table)).None? && r.Ok? ==>
                r.value == (if IsObject(instance) then ClassOf(instance).value else "")
    {
      if kind.CustomKind? {
        return Ok(kind.behaviour.reports.value);
      }
      if IsLoaded() {
        if IsObject(instance) {
          return Ok(ClassOf(instance).value);
        }
        mgr.events := mgr.events + [GetClassOnNonObject];
        return Ok("");
      }
      var cls := Setting(kind.config, ClassKey);
      if Truthy(cls) {
        return StringParam(cls);
      }
      var ty := Setting(kind.config, TypeKey);
      if Truthy(ty) {
        return StringParam(ty);
      }
      if Setting(kind.config, ContainerKey) != Null && intermediate == null {
        var ci :- LoadIntermediate(mgr, Setting(kind.config, ContainerKey), fuel);
        intermediate := ci;
      }
      if intermediate != null && intermediate.kind.behaviour.reports.Some? {
        return Ok(intermediate.kind.behaviour.reports.value);
      }
      var found :- LoadInstance(mgr, fuel);
      if IsObject(instance) {
        return Ok(ClassOf(instance).value);
      }
      return Ok("");
    }
  }

  // ---------------------------------------------------------------------------
  // The service manager
  // ---------------------------------------------------------------------------

  /** What `set` is given: a callable, or any other value. */
  datatype Input = Callable(f: Factory) | Given(v: Value)

  /** The inputs set() can store: callables, creatable configurations and objects. */
  predicate Accepts(n: string, input: Input) {
    || input.Callable?
    || (input.v.Arr? && Instantiable(input.v.entries))
    || IsObject(input.v)
  }

  /** The container set() stores for an input under name n. */
  predicate Wraps(c: Container, n: string, input: Input) {
    match input
    case Callable(f) => c.kind == CallbackKind(f)
    case Given(v) =>
      if v.Arr? then c.kind == ConfiguredKind(n, v.entries)
      else if v.Cont? then c == v.c
      else c.kind == StaticKind(v)
  }

  /**
   * The wrapping step of set(): a callable in a callback container, an array in a
   * configured container, a container as it is, another object in a static container.
   */
  method Wrap(n: string, input: Input) returns (r: Result<Container>)
    ensures r.Ok? <==> Accepts(n, input)
    ensures r.Ok? ==> Wraps(r.value, n, input)
    ensures r.Ok? && !(input.Given? && input.v.Cont?) ==>
              fresh(r.value) && r.value.instance == Null && r.value.intermediate == null
    ensures r.Err? ==> r.error == if input.Given? && input.v.Arr? then BadConfiguration(input.v, Some(n)) else NotAnObject
  {
    if input.Callable? {
      var c := new Container.Callback(input.f);
      return Ok(c);
    } else if input.v.Arr? {
      r := Container.NewConfigured(n, input.v.entries);
    } else if input.v.Cont? {
      return Ok(input.v.c);
    } else if IsObject(input.v) {
      var c := new Container.Static(input.v);
      return Ok(c);
    } else {
      return Err(NotAnObject);
    }
  }

  /** An entry of the class-name cache: a class name, or `false` for "no class". */
  datatype CachedClass = Named(name: string) | NotAClass

  /** `$cache[$n] ?: NULL` */
  function CachedAnswer(c: CachedClass): Option<string> {
    if c.Named? && Truthy(StrV(c.name)) then Some(c.name) else None
  }

  /** A promise handed out by yieldServices, resolved later by its consumer. */
  datatype Promise = SelfPromise | ContainerPromise(c: Container)

  /** An entry of getServices's result: a promise, or an instance resolved at once. */
  datatype Entry = Promised(p: Promise) | Resolved(v: Value)

  /** get_class() as getServiceClass stores it: a class name, or false with a warning. */
  function ClassEntry(v: Value): (CachedClass, seq<Event>) {
    if IsObject(v) then (Named(ClassOf(v).value), []) else (NotAClass, [GetClassOnNonObject])
  }

  /** What getServiceClass answers from its cache: the cached name, or null. */
  function ClassAnswer(cache: map<string, CachedClass>, n: string): Option<string> {
    if n in cache then CachedAnswer(cache[n]) else None
  }

  /**
   * The class an unloaded service-aware container reports without building anything:
   * a user container's fixed answer, or a configured container's class key, else its
   * type key; none when that is falsy.
   */
  function ReportedWithoutLoading(kind: ContainerKind): Option<Value> {
    match kind
    case CustomKind(_, b) =>
      if b.reports.Some? && Truthy(StrV(b.reports.value)) then Some(StrV(b.reports.value)) else None
    case ConfiguredKind(_, config) =>
      if Truthy(Setting(config, ClassKey)) then Some(Setting(config, ClassKey))
      else if Truthy(Setting(config, TypeKey)) then Some(Setting(config, TypeKey))
      else None
    case _ => None
  }

  /** A class report getServiceClass accepts: present and truthy. */
  predicate TruthyReport(o: Option<string>) {
    o.Some? && Truthy(StrV(o.value))
  }

  /** A truthy value passed as a string is a truthy string. */
  lemma StringParamTruthy(v: Value)
    requires Truthy(v) && StringParam(v).Ok?
    ensures Truthy(StrV(StringParam(v).value))
  {
    if v.IntV? && v.i > 0 {
      assert NatToString(v.i)[0] != '0';
    }
  }

  /** A registered service yieldServices yields: requested by name, or its class matches. */
  predicate Selected(table: ClassTable, cache: map<string, CachedClass>, n: string,
                     serviceNames: seq<string>, classNames: seq<string>, includeSubclasses: bool)
  {
    || n in serviceNames
    || NamedIn(ClassAnswer(cache, n), classNames)
    || (includeSubclasses && SubclassOfAny(table, ClassAnswer(cache, n), classNames))
  }

  /** The selected names, in their order. */
  function Chosen(table: ClassTable, cache: map<string, CachedClass>, names: seq<string>,
                  serviceNames: seq<string>, classNames: seq<string>, includeSubclasses: bool): (r: seq<string>)
    ensures forall n :: n in r <==> n in names && Selected(table, cache, n, serviceNames, classNames, includeSubclasses)
    ensures |r| <= |names|
  {
    if names == [] then []
    else
      var last := names[|names| - 1];
      var init := names[..|names| - 1];
      assert names == init + [last];
      Chosen(table, cache, init, serviceNames, classNames, includeSubclasses)
        + (if Selected(table, cache, last, serviceNames, classNames, includeSubclasses) then [last] else [])
  }

  /** The selection depends on the cache only through the answers for the names themselves. */
  lemma {:induction false} ChosenFrame(table: ClassTable, c1: map<string, CachedClass>, c2: map<string, CachedClass>,
                                       names: seq<string>, serviceNames: seq<string>, classNames: seq<string>,
                                       includeSubclasses: bool)
    requires forall i :: 0 <= i < |names| ==> ClassAnswer(c1, names[i]) == ClassAnswer(c2, names[i])
    ensures Chosen(table, c1, names, serviceNames, classNames, includeSubclasses)
         == Chosen(table, c2, names, serviceNames, classNames, includeSubclasses)
  {
    if names != [] {
      var init := names[..|names| - 1];
      assert forall i :: 0 <= i < |init| ==> init[i] == names[i];
      ChosenFrame(table, c1, c2, init, serviceNames, classNames, includeSubclasses);
    }
  }

  /** One more name of a duplicate-free list, whose cache entry alone may have been filled meanwhile. */
  lemma ChosenStep(table: ClassTable, before: map<string, CachedClass>, after: map<string, CachedClass>,
                   names: seq<string>, i: nat, serviceNames: seq<string>, classNames: seq<string>,
                   includeSubclasses: bool)
    requires i < |names| && Lifecycle.Distinct(names)
    requires after == before || (names[i] in after && after == before[names[i] := after[names[i]]])
    ensures Chosen(table, after, names[..i + 1], serviceNames, classNames, includeSubclasses)
         == Chosen(table, before, names[..i], serviceNames, classNames, includeSubclasses)
            + (if Selected(table, after, names[i], serviceNames, classNames, includeSubclasses) then [names[i]] else [])
  {
    var done := names[..i];
    assert forall j :: 0 <= j < |done| ==> done[j] == names[j] && names[j] != names[i];
    ChosenFrame(table, before, after, done, serviceNames, classNames, includeSubclasses);
    assert names[..i + 1] == done + [names[i]];
    ChosenSnoc(table, after, done, names[i], serviceNames, classNames, includeSubclasses);
  }

  /** The entry of the manager itself: a promise, or the manager when resolved at once. */
  function SelfEntry(resolveNow: bool): Entry {
    if resolveNow then Resolved(Manager) else Promised(SelfPromise)
  }

  /**
   * A list of yields: the manager under each of selfKeys, then each chosen service
   * under its name, as a promise of its container or resolved.
   */
  predicate Listed(ys: seq<(Option<string>, Entry)>, selfKeys: seq<Option<string>>, chosen: seq<string>,
                   data: map<string, Container>, resolveNow: bool)
  {
    && |ys| == |selfKeys| + |chosen|
    && (forall i :: 0 <= i < |selfKeys| ==> ys[i] == (selfKeys[i], SelfEntry(resolveNow)))
    && (forall j :: 0 <= j < |chosen| ==> ServiceYield(ys[|selfKeys| + j], chosen[j], data, resolveNow))
  }

  /** One service's yield: its name, and its container's promise or a resolved instance. */
  predicate ServiceYield(y: (Option<string>, Entry), n: string, data: map<string, Container>, resolveNow: bool) {
    && y.0 == Some(n)
    && (resolveNow ==> y.1.Resolved?)
    && (!resolveNow ==> n in data && y.1 == Promised(ContainerPromise(data[n])))
  }

  /** Appending one service's yield extends the list by that service. */
  lemma ListedSnoc(ys: seq<(Option<string>, Entry)>, selfKeys: seq<Option<string>>, chosen: seq<string>,
                   data: map<string, Container>, resolveNow: bool, y: (Option<string>, Entry), n: string)
    requires Listed(ys, selfKeys, chosen, data, resolveNow)
    requires ServiceYield(y, n, data, resolveNow)
    ensures Listed(ys + [y], selfKeys, chosen + [n], data, resolveNow)
  {
    var ys' := ys + [y];
    var chosen' := chosen + [n];
    forall j | 0 <= j < |chosen'| ensures ServiceYield(ys'[|selfKeys| + j], chosen'[j], data, resolveNow) {
      if j < |chosen| {
        assert ys'[|selfKeys| + j] == ys[|selfKeys| + j];
      }
    }
  }

  /** A service that is listed is a key of the array its yields are assigned into. */
  lemma ListedServiceIsKey(ys: seq<(Option<string>, Entry)>, selfKeys: seq<Option<string>>, chosen: seq<string>,
                           data: map<string, Container>, resolveNow: bool, n: string)
    requires Listed(ys, selfKeys, chosen, data, resolveNow) && n in chosen
    ensures n in OrderedMaps.Keys(OrderedMaps.Assign(ArrayPairs(ys)))
  {
    var j :| 0 <= j < |chosen| && chosen[j] == n;
    var ps := ArrayPairs(ys);
    assert ServiceYield(ys[|selfKeys| + j], chosen[j], data, resolveNow);
    assert OrderedMaps.Keys(ps)[|selfKeys| + j] == n;
    OrderedMaps.AssignKeys(ps);
  }

  /** The manager's own yields come first. */
  lemma ListedAfterSelf(selfPart: seq<(Option<string>, Entry)>, selfKeys: seq<Option<string>>,
                        services: seq<(Option<string>, Entry)>, chosen: seq<string>,
                        data: map<string, Container>, resolveNow: bool)
    requires |selfPart| == |selfKeys|
    requires forall i :: 0 <= i < |selfKeys| ==> selfPart[i] == (selfKeys[i], SelfEntry(resolveNow))
    requires Listed(services, [], chosen, data, resolveNow)
    ensures Listed(selfPart + services, selfKeys, chosen, data, resolveNow)
  {
    var ys := selfPart + services;
    forall j | 0 <= j < |chosen| ensures ServiceYield(ys[|selfKeys| + j], chosen[j], data, resolveNow) {
      assert ys[|selfKeys| + j] == services[j];
    }
  }

  /** Adding a name at the end selects it after the earlier ones, when it is selected. */
  lemma ChosenSnoc(table: ClassTable, cache: map<string, CachedClass>, names: seq<string>, n: string,
                   serviceNames: seq<string>, classNames: seq<string>, includeSubclasses: bool)
    ensures Chosen(table, cache, names + [n], serviceNames, classNames, includeSubclasses)
         == Chosen(table, cache, names, serviceNames, classNames, includeSubclasses)
            + (if Selected(table, cache, n, serviceNames, classNames, includeSubclasses) then [n] else [])
  {
    assert (names + [n])[..|names|] == names;
  }

  /** `$services[$name]`: a null name becomes the key "". */
  function ArrayKey(name: Option<string>): string {
    if name.Some? then name.value else ""
  }

  /** The yields as they are assigned into getServices's array. */
  function ArrayPairs(ys: seq<(Option<string>, Entry)>): (ps: seq<(string, Entry)>)
    ensures |ps| == |ys|
    ensures forall i :: 0 <= i < |ys| ==> ps[i] == (ArrayKey(ys[i].0), ys[i].1)
  {
    seq(|ys|, i requires 0 <= i < |ys| => (ArrayKey(ys[i].0), ys[i].1))
  }

  /** The configuration of the manager that no lookup changes. */
  datatype Snapshot = Snapshot(
    order: seq<string>,
    serviceData: map<string, Container>,
    parameters: Parameters,
    selfReferenceNames: seq<string>,
    replaceExisting: bool)

  const PersistentFile := "./service-management.initial-file.php"
  const InitialFileParameter := "sm.initial.file"

  class ServiceManager {
    /** The classes the program knows. */
    const table: ClassTable
    /** The service scripts on disk, by path. */
    const files: map<string, ScriptResult>

    /** The registered service names in registration order (the key order of `$serviceData`). */
    var order: seq<string>
    var serviceData: map<string, Container>
    var parameters: Parameters
    var classCache: map<string, CachedClass>
    var selfReferenceNames: seq<string>
    var replaceExisting: bool
    var registeredServices: seq<string>
    var registeredServicesChanges: bool
    var events: seq<Event>
    /** Every container the manager has registered or created. */
    ghost var Repr: set<Container>

    ghost predicate Valid()
      reads this
    {
      && (forall n :: n in serviceData ==> serviceData[n] in Repr)
      && (forall n :: n in serviceData <==> n in order)
      && Lifecycle.Distinct(order)
    }

    function Settings(): Snapshot
      reads this
    {
      Snapshot(order, serviceData, parameters, selfReferenceNames, replaceExisting)
    }

    function Ledger(): Lifecycle.Ledger
      reads this
    {
      Lifecycle.Ledger(registeredServices, registeredServicesChanges)
    }

    /** What a lookup may do to the manager: create containers, register and log, nothing else. */
    twostate predicate Grown()
      reads this
    {
      && Valid()
      && old(Repr) <= Repr && fresh(Repr - old(Repr))
      && Settings() == old(Settings())
      && old(registeredServices) <= registeredServices
      && (old(registeredServicesChanges) ==> registeredServicesChanges)
      && old(events) <= events
    }

    /** Grown, with the class-name cache untouched. */
    twostate predicate Evolved()
      reads this
    {
      Grown() && classCache == old(classCache)
    }

    constructor (table: ClassTable, files: map<string, ScriptResult>)
      ensures Valid() && this.table == table && this.files == files
      ensures order == [] && serviceData == map[] && parameters == map[] && classCache == map[]
      ensures selfReferenceNames == ["serviceManager", "SERVICES"] && !replaceExisting
      ensures registeredServices == [] && !registeredServicesChanges && events == [] && Repr == {}
    {
      this.table := table;
      this.files := files;
      order := [];
      serviceData := map[];
      parameters := map[];
      classCache := map[];
      selfReferenceNames := ["serviceManager", "SERVICES"];
      replaceExisting := false;
      registeredServices := [];
      registeredServicesChanges := false;
      events := [];
      Repr := {};
    }

    /** serviceExists() */
    function ServiceExists(n: string): (b: bool)
      reads this
      ensures Valid() ==> (b <==> n in AvailableServices() || n in selfReferenceNames)
    {
      n in serviceData || n in selfReferenceNames
    }

    /** getAvailableServices(): the registered names in registration order. */
    function AvailableServices(): (names: seq<string>)
      requires Valid()
      reads this
      ensures forall n :: n in names <==> n in serviceData
      ensures Lifecycle.Distinct(names)
    {
      order
    }

    /** isServiceLoaded(): self names are always loaded, services when their instance is. */
    function IsServiceLoaded(n: string): (b: bool)
      requires Valid()
      reads this, Repr
      ensures b ==> ServiceExists(n)
      ensures n in selfReferenceNames ==> b
      ensures n !in selfReferenceNames && n in serviceData ==> (b <==> serviceData[n].IsLoaded())
    {
      if ServiceExists(n) then
        if n in selfReferenceNames then true else serviceData[n].IsLoaded()
      else false
    }

    /** The instance implements RegistryServiceInterface. */
    predicate IsRegistryService(v: Value) {
      ClassOf(v).Some? && ClassOf(v).value in table && table[ClassOf(v).value].registryService
    }

    /** The hook call of `get` for a service: installService on its first delivery. */
    function InstallEvents(g: Lifecycle.Ledger, n: string, v: Value): seq<Event> {
      if Lifecycle.InstallFires(g, n, IsRegistryService(v)) then [Installed(n)] else []
    }

    /** setParameter() */
    method SetParameter(name: string, v: Value)
      modifies this
      ensures parameters == SetParam(old(parameters), name, v)
      ensures order == old(order) && serviceData == old(serviceData) && classCache == old(classCache)
      ensures selfReferenceNames == old(selfReferenceNames) && replaceExisting == old(replaceExisting)
      ensures Ledger() == old(Ledger()) && events == old(events) && Repr == old(Repr)
    {
      parameters := SetParam(parameters, name, v);
    }

    /** `__destruct`: the file the registered list is written to, if it changed. */
    function FlushTarget(): (r: Option<Value>)
      reads this
      ensures r.Some? <==> Lifecycle.NeedsFlush(Ledger()) && Truthy(GetParam(parameters, InitialFileParameter).0)
    {
      var (f, _) := GetParam(parameters, InitialFileParameter);
      if registeredServicesChanges && Truthy(f) then Some(f) else None
    }

    /**
     * set(): refuses a taken name (a registered service or a self-reference name) unless
     * replacing is allowed, then wraps the value: a callable in a callback container, an
     * array in a configured container, an object in a static container; a container is
     * stored as it is; anything else is refused.
     */
    method Set(n: string, input: Input) returns (r: Result<()>)
      requires Valid()
      modifies this
      ensures Valid()
      ensures var taken := n in old(serviceData) || n in selfReferenceNames;
              && (taken && !replaceExisting ==> r == Err(AlreadyRegistered(n)) && unchanged(this))
              && (taken && replaceExisting ==> events == old(events) + [AlreadyRegisteredNotice(n)])
              && (!taken ==> events == old(events))
      ensures !(n in old(serviceData) || n in selfReferenceNames) || replaceExisting ==>
                (r.Ok? <==> Accepts(n, input))
      ensures r.Ok? ==> n in serviceData && serviceData == old(serviceData)[n := serviceData[n]]
      ensures r.Ok? ==> Wraps(serviceData[n], n, input)
      ensures r.Ok? && !(input.Given? && input.v.Cont?) ==> fresh(serviceData[n])
      ensures r.Ok? && (input.Callable? || input.v.Arr?) ==> !serviceData[n].IsLoaded()
      ensures r.Ok? ==> order == if n in old(serviceData) then old(order) else old(order) + [n]
      ensures r.Ok? ==> Repr == old(Repr) + {serviceData[n]}
      ensures r.Err? ==> serviceData == old(serviceData) && order == old(order) && Repr == old(Repr)
      ensures r.Err? && !(n in old(serviceData) || n in selfReferenceNames) ==>
                r.error == if input.Given? && input.v.Arr? then BadConfiguration(input.v, Some(n)) else NotAnObject
      ensures parameters == old(parameters) && classCache == old(classCache)
      ensures selfReferenceNames == old(selfReferenceNames) && replaceExisting == old(replaceExisting)
      ensures Ledger() == old(Ledger())
    {
      if n in serviceData || n in selfReferenceNames {
        if replaceExisting {
          events := events + [AlreadyRegisteredNotice(n)];
        } else {
          return Err(AlreadyRegistered(n));
        }
      }
      var c :- Wrap(n, input);
      Store(n, c);
      return Ok(());
    }

    /** The storing step of set(): the container under its name, the name appended when new. */
    method Store(n: string, c: Container)
      requires Valid()
      modifies this
      ensures Valid()
      ensures serviceData == old(serviceData)[n := c] && Repr == old(Repr) + {c}
      ensures order == if n in old(serviceData) then old(order) else old(order) + [n]
      ensures parameters == old(parameters) && classCache == old(classCache) && events == old(events)
      ensures selfReferenceNames == old(selfReferenceNames) && replaceExisting == old(replaceExisting)
      ensures Ledger() == old(Ledger())
    {
      if n !in serviceData {
        order := order + [n];
      }
      serviceData := serviceData[n := c];
      Repr := Repr + {c};
    }

    /**
     * get(): a registered service's instance, marked as registered (and installed when
     * it is a registry service) the first time; the manager itself for a self-reference
     * name; otherwise an unknown-service error. The ghost `mid` is the ledger and the
     * log as the container's getInstance left them.
     */
    method Get(n: string, fuel: nat) returns (r: Result<Value>, ghost mid: (Lifecycle.Ledger, seq<Event>))
      requires Valid()
      modifies this, Repr
      decreases fuel, 9, 0
      ensures Evolved()
      ensures n !in serviceData ==>
                unchanged(this) && r == (if n in selfReferenceNames then Ok(Manager) else Err(UnknownService(n)))
      ensures n in serviceData && r.Ok? ==>
                r.value == serviceData[n].Instance()
                && Ledger() == Lifecycle.AfterGet(mid.0, n)
                && events == mid.1 + InstallEvents(mid.0, n, r.value)
      ensures n in serviceData && r.Ok? && Truthy(r.value) ==> IsServiceLoaded(n)
      ensures n in serviceData && old(serviceData[n].IsLoaded()) ==>
                mid == (old(Ledger()), old(events)) && Repr == old(Repr) && unchanged(old(Repr))
                && r == Ok(old(serviceData[n].Instance()))
    {
      mid := (Ledger(), events);
      if n in serviceData {
        var c := serviceData[n];
        var s := c.GetInstance(this, fuel);
        if s.Err? {
          return Err(s.error), mid;
        }
        mid := (Ledger(), events);
        if n !in registeredServices {
          registeredServices := registeredServices + [n];
          registeredServicesChanges := true;
          if IsRegistryService(s.value) {
            events := events + [Installed(n)];
          }
        }
        return Ok(s.value), mid;
      }
      if n in selfReferenceNames {
        return Ok(Manager), mid;
      }
      return Err(UnknownService(n)), mid;
    }

    /**
     * Two gets in a row: once a service has been delivered (truthy), the second get
     * returns the identical instance and loads nothing.
     */
    method GetTwice(n: string, fuel: nat) returns (first: Result<Value>, second: Result<Value>)
      requires Valid()
      modifies this, Repr
      ensures Evolved()
      ensures n in serviceData && first.Ok? && Truthy(first.value) ==> second == first
      ensures n !in serviceData ==> second == first
    {
      ghost var mid;
      first, mid := Get(n, fuel);
      second, mid := Get(n, fuel);
    }

    /** The SERVICES handler's test: a `$name` string naming an existing service. */
    function Referenced(w: Value): (n: Option<string>)
      reads this
      ensures n.Some? ==> ServiceExists(n.value) && Placeholders.IsIdentifier(n.value)
      ensures n.None? && w.StrV? && Placeholders.ServiceReference(w.s).Some? ==>
                !ServiceExists(Placeholders.ServiceReference(w.s).value)
    {
      if w.StrV? && Placeholders.ServiceReference(w.s).Some? && ServiceExists(Placeholders.ServiceReference(w.s).value)
      then Placeholders.ServiceReference(w.s) else None
    }

    /**
     * The value handler of mapArray: the PARAMETERS handler, then the SERVICES handler,
     * which replaces a `$name` reference to an existing service by `get(name)`.
     */
    method Resolve(v: Value, fuel: nat) returns (r: Result<Value>)
      requires Valid()
      modifies this, Repr
      decreases fuel, 0, 1
      ensures Evolved()
      ensures !v.StrV? ==> r == Ok(v) && unchanged(this)
      ensures v.StrV? && '%' !in v.s && Placeholders.ServiceReference(v.s).None? ==> r == Ok(v) && unchanged(this)
      ensures (v.StrV? && '%' !in v.s && Placeholders.ServiceReference(v.s).Some?
               && !ServiceExists(Placeholders.ServiceReference(v.s).value)) ==> r == Ok(v) && unchanged(this)
      ensures var p := ApplyParameters(old(parameters), v);
              p.Err? ==> r == Err(p.error) && unchanged(this)
      ensures var p := ApplyParameters(old(parameters), v);
              p.Ok? && Referenced(p.value.0).None? ==>
                r == Ok(p.value.0) && events == old(events) + p.value.1
                && Ledger() == old(Ledger()) && Repr == old(Repr) && unchanged(old(Repr))
      ensures var p := ApplyParameters(old(parameters), v);
              p.Ok? && Referenced(p.value.0).Some? && fuel == 0 ==> r == Err(NestingLimit)
      ensures var p := ApplyParameters(old(parameters), v);
              p.Ok? && Referenced(p.value.0).Some? && Referenced(p.value.0).value in serviceData && r.Ok? ==>
                r.value == serviceData[Referenced(p.value.0).value].Instance()
      ensures var p := ApplyParameters(old(parameters), v);
              p.Ok? && Referenced(p.value.0).Some? && Referenced(p.value.0).value !in serviceData && fuel > 0 ==>
                r == Ok(Manager)
    {
      if v.StrV? && '%' !in v.s {
        ApplyParametersPlainString(parameters, v.s);
      }
      var p := ApplyParameters(parameters, v);
      if p.Err? {
        return Err(p.error);
      }
      var (w, warnings) := p.value;
      if warnings != [] {
        events := events + warnings;
      }
      var ref := Referenced(w);
      if ref.Some? {
        r := ResolveReference(ref.value, fuel);
        return;
      }
      return Ok(w);
    }

    /** The SERVICES handler on a reference to an existing service: that service, through get. */
    method ResolveReference(name: string, fuel: nat) returns (r: Result<Value>)
      requires Valid() && ServiceExists(name)
      modifies this, Repr
      decreases fuel, 0, 0
      ensures Evolved()
      ensures fuel == 0 ==> r == Err(NestingLimit)
      ensures name in serviceData && r.Ok? ==> r.value == serviceData[name].Instance()
      ensures name !in serviceData && fuel > 0 ==> r == Ok(Manager)
    {
      if fuel == 0 {
        return Err(NestingLimit);
      }
      var got, _ := Get(name, fuel - 1);
      return got;
    }

    /**
     * mapArray(…, true): every entry is passed through the value handler, nested arrays
     * are mapped recursively; keys and their order stay.
     */
    method MapArray(v: Value, fuel: nat) returns (r: Result<Value>)
      requires v.Arr?
      requires Valid()
      modifies this, Repr
      decreases fuel, 1, v
      ensures Evolved()
      ensures r.Ok? ==> MappedFrom(v.entries, r.value)
    {
      var es := v.entries;
      var out: seq<(Key, Value)> := [];
      var i := 0;
      while i < |es|
        invariant 0 <= i <= |es| && |out| == i
        invariant forall j :: 0 <= j < i ==> out[j].0 == es[j].0 && KeptShape(es[j].1, out[j].1)
        invariant Evolved()
      {
        var (k, item) := es[i];
        var mapped: Value;
        if item.Arr? {
          assert item < v;
          mapped :- MapArray(item, fuel);
        } else {
          mapped :- Resolve(item, fuel);
        }
        out := out + [(k, mapped)];
        i := i + 1;
      }
      return Ok(Arr(out));
    }

    /** The argument step of makeServiceInstance: the template, then mapping when truthy. */
    method PrepareArguments(info: Option<ClassInfo>, arguments: Value, fuel: nat) returns (r: Result<Value>)
      requires Valid()
      modifies this, Repr
      decreases fuel, 3, 0
      ensures Evolved()
      ensures !Truthy(Prepared(info, arguments)) ==>
                r == Ok(Prepared(info, arguments)) && unchanged(this) && unchanged(Repr)
      ensures Truthy(Prepared(info, arguments)) && r.Ok? ==> MappedFrom(MakeArray(Prepared(info, arguments)), r.value)
    {
      var args := arguments;
      if info.Some? && info.value.template.Some? && info.value.template.value != [] {
        var merged := MergeTemplate(info.value.template.value, arguments);
        args := Arr(merged);
      }
      if Truthy(args) {
        r := MapArray(Arr(MakeArray(args)), fuel);
        return;
      }
      return Ok(args);
    }

    /** The setConfiguration() step of makeServiceInstance: a mapped copy of the configuration, when asked for. */
    method HandConfiguration(made: Value, configure: bool, configuration: Value, fuel: nat) returns (r: Result<()>)
      requires Valid() && (made.Obj? || made.Cont?)
      requires made.Obj? ==> made.o.configuration == Null
      requires made.Cont? ==> made.c !in Repr
      modifies this, Repr, if made.Obj? then {made.o} else {}, if made.Cont? then {made.c} else {}
      decreases fuel, 2, 0
      ensures Evolved()
      ensures made.Obj? && r.Ok? ==> (made.o.configuration != Null <==> configure)
      ensures made.Obj? && r.Ok? && configure ==> MappedFrom(MakeArray(configuration), made.o.configuration)
      ensures made.Cont? ==> made.c.instance == old(made.c.instance) && made.c !in Repr
    {
      if configure {
        var cfg :- MapArray(Arr(MakeArray(configuration)), fuel);
        if made.Obj? {
          made.o.configuration := cfg;
        } else {
          made.c.configuration := cfg;
        }
      }
      return Ok(());
    }

    /**
     * makeServiceInstance(): applies a constructor-aware class's template, maps the
     * arguments when they are truthy, constructs the object (with the arguments and the
     * manager for a static-constructor class, with the argument values otherwise) and
     * hands it its mapped configuration when it has setConfiguration().
     */
    method MakeServiceInstance(cls: string, arguments: Value, configuration: Value, fuel: nat)
      returns (r: Result<Value>)
      requires Valid()
      modifies this, Repr
      decreases fuel, 4, 0
      ensures Evolved()
      ensures cls !in table ==> r.Err?
      ensures r.Ok? ==> cls in table && ClassOf(r.value) == Some(cls)
      ensures r.Ok? ==> (r.value.Cont? <==> table[cls].container.Some?) && (r.value.Obj? || r.value.Cont?)
      ensures r.Ok? && r.value.Cont? ==>
                fresh(r.value.c) && r.value.c in Repr && r.value.c.kind == CustomKind(cls, table[cls].container.value)
                && r.value.c.instance == Null
      ensures r.Ok? && r.value.Obj? ==>
                fresh(r.value.o) && (r.value.o.made.WithManager? <==> table[cls].staticConstruction)
                && (r.value.o.made.Positional? <==> !table[cls].staticConstruction)
      ensures r.Ok? && r.value.Obj? && !Truthy(Prepared(Some(table[cls]), arguments)) ==>
                r.value.o.made == (if table[cls].staticConstruction then WithManager(arguments) else Positional([]))
      ensures r.Ok? && r.value.Obj? && Truthy(Prepared(Some(table[cls]), arguments)) && !table[cls].staticConstruction ==>
                |r.value.o.made.args| == |MakeArray(Prepared(Some(table[cls]), arguments))|
                && |r.value.o.made.args| >= table[cls].requiredArgs
                && forall i :: 0 <= i < |r.value.o.made.args| ==>
                     KeptShape(MakeArray(Prepared(Some(table[cls]), arguments))[i].1, r.value.o.made.args[i])
      ensures r.Ok? && r.value.Obj? && Truthy(Prepared(Some(table[cls]), arguments)) && table[cls].staticConstruction ==>
                MappedFrom(MakeArray(Prepared(Some(table[cls]), arguments)), r.value.o.made.arguments)
      ensures r.Ok? && r.value.Obj? ==>
                (r.value.o.configuration != Null <==> Truthy(configuration) && table[cls].configurable)
      ensures r.Ok? && r.value.Obj? && Truthy(configuration) && table[cls].configurable ==>
                MappedFrom(MakeArray(configuration), r.value.o.configuration)
    {
      if cls !in table {
        events := events + [UnknownClassWarning(cls)];
        var args :- PrepareArguments(None, arguments, fuel);
        return Err(ClassNotFound(cls));
      }
      r := MakeKnown(cls, table[cls], arguments, configuration, fuel);
    }

    /** makeServiceInstance() for a class the table knows. */
    method MakeKnown(cls: string, ci: ClassInfo, arguments: Value, configuration: Value, fuel: nat)
      returns (r: Result<Value>)
      requires Valid()
      modifies this, Repr
      decreases fuel, 3, 1
      ensures Evolved()
      ensures r.Ok? ==> ClassOf(r.value) == Some(cls)
      ensures r.Ok? ==> (r.value.Cont? <==> ci.container.Some?) && (r.value.Obj? || r.value.Cont?)
      ensures r.Ok? && r.value.Cont? ==>
                fresh(r.value.c) && r.value.c in Repr && r.value.c.kind == CustomKind(cls, ci.container.value)
                && r.value.c.instance == Null
      ensures r.Ok? && r.value.Obj? ==>
                fresh(r.value.o) && (r.value.o.made.WithManager? <==> ci.staticConstruction)
                && (r.value.o.made.Positional? <==> !ci.staticConstruction)
      ensures r.Ok? && r.value.Obj? && !Truthy(Prepared(Some(ci), arguments)) ==>
                r.value.o.made == (if ci.staticConstruction then WithManager(arguments) else Positional([]))
      ensures r.Ok? && r.value.Obj? && Truthy(Prepared(Some(ci), arguments)) && !ci.staticConstruction ==>
                |r.value.o.made.args| == |MakeArray(Prepared(Some(ci), arguments))|
                && |r.value.o.made.args| >= ci.requiredArgs
                && forall i :: 0 <= i < |r.value.o.made.args| ==>
                     KeptShape(MakeArray(Prepared(Some(ci), arguments))[i].1, r.value.o.made.args[i])
      ensures r.Ok? && r.value.Obj? && Truthy(Prepared(Some(ci), arguments)) && ci.staticConstruction ==>
                MappedFrom(MakeArray(Prepared(Some(ci), arguments)), r.value.o.made.arguments)
      ensures r.Ok? && r.value.Obj? ==>
                (r.value.o.configuration != Null <==> Truthy(configuration) && ci.configurable)
      ensures r.Ok? && r.value.Obj? && Truthy(configuration) && ci.configurable ==>
                MappedFrom(MakeArray(configuration), r.value.o.configuration)
    {
      var args :- PrepareArguments(Some(ci), arguments, fuel);
      r := Build(cls, ci, args, Truthy(configuration) && ci.configurable, configuration, fuel);
    }

    /** Construction and configuration, once the arguments are prepared. */
    method Build(cls: string, ci: ClassInfo, args: Value, configure: bool, configuration: Value, fuel: nat)
      returns (r: Result<Value>)
      requires Valid()
      modifies this, Repr
      decreases fuel, 2, 1
      ensures Evolved()
      ensures r.Ok? ==> ClassOf(r.value) == Some(cls)
      ensures r.Ok? ==> (r.value.Cont? <==> ci.container.Some?) && (r.value.Obj? || r.value.Cont?)
      ensures r.Ok? && r.value.Cont? ==>
                fresh(r.value.c) && r.value.c in Repr && r.value.c.kind == CustomKind(cls, ci.container.value)
                && r.value.c.instance == Null
      ensures r.Ok? && r.value.Obj? ==>
                fresh(r.value.o) && r.value.o.made == (if ci.staticConstruction then WithManager(args)
                                                       else Positional(if args.Arr? then Values(args.entries) else []))
                && (r.value.o.configuration != Null <==> configure)
      ensures r.Ok? && r.value.Obj? && configure ==> MappedFrom(MakeArray(configuration), r.value.o.configuration)
      ensures r.Ok? && r.value.Obj? && !ci.staticConstruction ==>
                |if args.Arr? then Values(args.entries) else []| >= ci.requiredArgs
    {
      var made :- Instantiate(cls, ci, args);
      var configured :- HandConfiguration(made, configure, configuration, fuel);
      if made.Cont? {
        Repr := Repr + {made.c};
      }
      return Ok(made);
    }

    /** The part of getServiceClass that asks a registered service's container. */
    method ClassOfService(n: string, forced: bool, fuel: nat) returns (r: Result<Option<string>>)
      requires Valid() && n in serviceData && n !in classCache
      modifies this, Repr
      ensures Grown()
      ensures !old(serviceData[n].IsLoaded()) && ReportedWithoutLoading(old(serviceData[n]).kind).None?
              && !TruthyReport(old(serviceData[n].IntermediateReport(table))) && !forced && r.Ok? ==>
                classCache == (if old(serviceData[n]).kind.ConfiguredKind? && old(serviceData[n].IntermediateReport(table)).None?
                                  && IsObject(serviceData[n].instance) && Truthy(StrV(ClassOf(serviceData[n].instance).value))
                               then old(classCache)[n := Named(ClassOf(serviceData[n].instance).value)]
                               else old(classCache))
      ensures classCache == old(classCache) || (n in classCache && classCache == old(classCache)[n := classCache[n]])
      ensures old(serviceData[n].IsLoaded()) ==>
                classCache == old(classCache)[n := ClassEntry(old(serviceData[n].Instance())).0]
                && events == old(events) + ClassEntry(old(serviceData[n].Instance())).1
                && Repr == old(Repr) && unchanged(old(Repr))
      ensures r.Ok? && forced ==> n in classCache
      ensures !forced && !old(serviceData[n].IsLoaded()) && !old(serviceData[n]).IsServiceAware() ==>
                r == Ok(None) && unchanged(this) && Repr == old(Repr) && unchanged(old(Repr))
      ensures !old(serviceData[n].IsLoaded()) && ReportedWithoutLoading(old(serviceData[n]).kind).Some? ==>
                var key := StringParam(ReportedWithoutLoading(old(serviceData[n]).kind).value);
                (r.Ok? <==> key.Ok?) && (key.Ok? ==> classCache == old(classCache)[n := Named(key.value)])
                && (key.Err? ==> classCache == old(classCache))
                && events == old(events) && Repr == old(Repr) && unchanged(old(Repr))
      ensures !old(serviceData[n].IsLoaded()) && ReportedWithoutLoading(old(serviceData[n]).kind).None?
              && TruthyReport(old(serviceData[n].IntermediateReport(table))) && r.Ok? ==>
                classCache == old(classCache)[n := Named(old(serviceData[n].IntermediateReport(table)).value)]
      ensures !old(serviceData[n].IsLoaded()) && ReportedWithoutLoading(old(serviceData[n]).kind).None?
              && !TruthyReport(old(serviceData[n].IntermediateReport(table))) && forced && r.Ok? ==>
                classCache == old(classCache)[n := ClassEntry(serviceData[n].Instance()).0]
    {
      if serviceData[n].IsLoaded() {
        r := ClassOfLoaded(n, fuel);
      } else {
        r := ClassOfUnloaded(n, forced, fuel);
      }
    }

    /** A loaded service: the class of its instance. */
    method ClassOfLoaded(n: string, fuel: nat) returns (r: Result<Option<string>>)
      requires Valid() && n in serviceData && n !in classCache && serviceData[n].IsLoaded()
      modifies this, Repr
      ensures Grown() && r.Ok?
      ensures classCache == old(classCache)[n := ClassEntry(old(serviceData[n].Instance())).0]
      ensures events == old(events) + ClassEntry(old(serviceData[n].Instance())).1
      ensures Repr == old(Repr) && unchanged(old(Repr))
    {
      var c := serviceData[n];
      var got := c.GetInstance(this, fuel);
      var entry := ClassEntry(got.value);
      classCache := classCache[n := entry.0];
      events := events + entry.1;
      return Ok(None);
    }

    /** A service not loaded yet: its container's report, else (when forced) its loaded instance. */
    method ClassOfUnloaded(n: string, forced: bool, fuel: nat) returns (r: Result<Option<string>>)
      requires Valid() && n in serviceData && n !in classCache
      modifies this, Repr
      ensures Grown()
      ensures !old(serviceData[n].IsLoaded()) && ReportedWithoutLoading(old(serviceData[n]).kind).None?
              && !TruthyReport(old(serviceData[n].IntermediateReport(table))) && !forced && r.Ok? ==>
                classCache == (if old(serviceData[n]).kind.ConfiguredKind? && old(serviceData[n].IntermediateReport(table)).None?
                                  && IsObject(serviceData[n].instance) && Truthy(StrV(ClassOf(serviceData[n].instance).value))
                               then old(classCache)[n := Named(ClassOf(serviceData[n].instance).value)]
                               else old(classCache))
      ensures classCache == old(classCache) || (n in classCache && classCache == old(classCache)[n := classCache[n]])
      ensures r.Ok? && forced ==> n in classCache
      ensures !forced && !old(serviceData[n]).IsServiceAware() ==>
                r == Ok(None) && unchanged(this) && Repr == old(Repr) && unchanged(old(Repr))
      ensures !old(serviceData[n].IsLoaded()) && ReportedWithoutLoading(old(serviceData[n]).kind).Some? ==>
                var key := StringParam(ReportedWithoutLoading(old(serviceData[n]).kind).value);
                (r.Ok? <==> key.Ok?) && (key.Ok? ==> classCache == old(classCache)[n := Named(key.value)])
                && (key.Err? ==> classCache == old(classCache))
                && events == old(events) && Repr == old(Repr) && unchanged(old(Repr))
      ensures !old(serviceData[n].IsLoaded()) && ReportedWithoutLoading(old(serviceData[n]).kind).None?
              && TruthyReport(old(serviceData[n].IntermediateReport(table))) && r.Ok? ==>
                classCache == old(classCache)[n := Named(old(serviceData[n].IntermediateReport(table)).value)]
      ensures !old(serviceData[n].IsLoaded()) && ReportedWithoutLoading(old(serviceData[n]).kind).None?
              && !TruthyReport(old(serviceData[n].IntermediateReport(table))) && forced && r.Ok? ==>
                classCache == old(classCache)[n := ClassEntry(serviceData[n].Instance()).0]
    {
      var reported :- ReportedClass(n, fuel);
      if Truthy(StrV(reported)) {
        classCache := classCache[n := Named(reported)];
      } else if forced {
        var loaded :- ClassOfInstance(n, fuel);
      }
      return Ok(None);
    }

    /** The class a service-aware container reports for a service, "" for any other container. */
    method ReportedClass(n: string, fuel: nat) returns (r: Result<string>)
      requires Valid() && n in serviceData
      modifies this, Repr
      ensures Evolved()
      ensures !old(serviceData[n]).IsServiceAware() ==>
                r == Ok("") && unchanged(this) && Repr == old(Repr) && unchanged(old(Repr))
      ensures !old(serviceData[n].IsLoaded()) && ReportedWithoutLoading(old(serviceData[n]).kind).Some? ==>
                r == StringParam(ReportedWithoutLoading(old(serviceData[n]).kind).value)
                && (r.Ok? ==> Truthy(StrV(r.value)))
                && unchanged(this) && Repr == old(Repr) && unchanged(old(Repr))
      ensures old(serviceData[n]).kind.CustomKind? && old(serviceData[n]).kind.behaviour.reports.Some? ==>
                r == Ok(old(serviceData[n]).kind.behaviour.reports.value)
      ensures !old(serviceData[n].IsLoaded()) && ReportedWithoutLoading(old(serviceData[n]).kind).None?
              && old(serviceData[n].IntermediateReport(table)).Some? && r.Ok? ==>
                r.value == old(serviceData[n].IntermediateReport(table)).value
      ensures !old(serviceData[n].IsLoaded()) && ReportedWithoutLoading(old(serviceData[n]).kind).None?
              && old(serviceData[n]).kind.ConfiguredKind? && old(serviceData[n].IntermediateReport(table)).None? && r.Ok? ==>
                r.value == (if IsObject(serviceData[n].instance) then ClassOf(serviceData[n].instance).value else "")
    {
      var c := serviceData[n];
      var cheap := ReportedWithoutLoading(c.kind);
      if cheap.Some? && StringParam(cheap.value).Ok? {
        StringParamTruthy(cheap.value);
      }
      if c.IsServiceAware() {
        r := c.GetServiceClass(this, fuel);
      } else {
        r := Ok("");
      }
    }

    /** A forced query that found no reported class: the class of the loaded instance. */
    method ClassOfInstance(n: string, fuel: nat) returns (r: Result<()>)
      requires Valid() && n in serviceData
      modifies this, Repr
      ensures Grown()
      ensures r.Ok? ==> classCache == old(classCache)[n := ClassEntry(serviceData[n].Instance()).0]
      ensures r.Err? ==> classCache == old(classCache)
    {
      var v :- serviceData[n].GetInstance(this, fuel);
      var entry := ClassEntry(v);
      classCache := classCache[n := entry.0];
      events := events + entry.1;
      return Ok(());
    }

    /** getServiceClass for a registered name with no cache entry: the entry, or null with a notice. */
    method ClassOfRegistered(n: string, forced: bool, fuel: nat) returns (r: Result<Option<string>>)
      requires Valid() && n in serviceData && n !in classCache
      modifies this, Repr
      ensures Grown()
      ensures !old(serviceData[n].IsLoaded()) && ReportedWithoutLoading(old(serviceData[n]).kind).None?
              && !TruthyReport(old(serviceData[n].IntermediateReport(table))) && !forced && r.Ok? ==>
                classCache == (if old(serviceData[n]).kind.ConfiguredKind? && old(serviceData[n].IntermediateReport(table)).None?
                                  && IsObject(serviceData[n].instance) && Truthy(StrV(ClassOf(serviceData[n].instance).value))
                               then old(classCache)[n := Named(ClassOf(serviceData[n].instance).value)]
                               else old(classCache))
      ensures !old(serviceData[n].IsLoaded())
              && ReportedWithoutLoading(old(serviceData[n]).kind).Some?
              && StringParam(ReportedWithoutLoading(old(serviceData[n]).kind).value).Err? ==>
                r.Err? && classCache == old(classCache) && events == old(events)
      ensures classCache == old(classCache) || (n in classCache && classCache == old(classCache)[n := classCache[n]])
      ensures r.Ok? ==> r.value == ClassAnswer(classCache, n)
      ensures old(serviceData[n].IsLoaded()) ==>
                classCache == old(classCache)[n := ClassEntry(old(serviceData[n].Instance())).0]
                && events == old(events) + ClassEntry(old(serviceData[n].Instance())).1
                && Repr == old(Repr) && unchanged(old(Repr))
      ensures r.Ok? && forced ==> n in classCache
      ensures !forced && !old(serviceData[n].IsLoaded())
              && !old(serviceData[n]).IsServiceAware() ==>
                r == Ok(None) && classCache == old(classCache) && events == old(events) + [UndefinedIndex(n)]
                && Repr == old(Repr) && unchanged(old(Repr))
      ensures !old(serviceData[n].IsLoaded())
              && ReportedWithoutLoading(old(serviceData[n]).kind).Some?
              && StringParam(ReportedWithoutLoading(old(serviceData[n]).kind).value).Ok? ==>
                var cls := StringParam(ReportedWithoutLoading(old(serviceData[n]).kind).value).value;
                r == Ok(Some(cls)) && classCache == old(classCache)[n := Named(cls)]
                && events == old(events) && Repr == old(Repr) && unchanged(old(Repr))
      ensures r.Ok? && n !in classCache ==>
                !forced && |events| > 0 && events[|events| - 1] == UndefinedIndex(n)
      ensures !old(serviceData[n].IsLoaded()) && ReportedWithoutLoading(old(serviceData[n]).kind).None?
              && TruthyReport(old(serviceData[n].IntermediateReport(table))) && r.Ok? ==>
                classCache == old(classCache)[n := Named(old(serviceData[n].IntermediateReport(table)).value)]
      ensures !old(serviceData[n].IsLoaded()) && ReportedWithoutLoading(old(serviceData[n]).kind).None?
              && !TruthyReport(old(serviceData[n].IntermediateReport(table))) && forced && r.Ok? ==>
                classCache == old(classCache)[n := ClassEntry(serviceData[n].Instance()).0]
    {
      r := ClassOfService(n, forced, fuel);
      if r.Err? {
        return;
      }
      if n !in classCache {
        events := events + [UndefinedIndex(n)];
        return Ok(None);
      }
      return Ok(ClassAnswer(classCache, n));
    }

    /**
     * getServiceClass(): answers from the class-name cache, or fills it once: a loaded
     * service gives the class of its instance, a service-aware container its reported
     * class, and a forced query loads the instance; a self-reference name gives the
     * manager's class and an unknown name false. An unforced query that finds nothing
     * leaves the cache empty and reads the missing entry.
     */
    method GetServiceClass(n: string, forced: bool, fuel: nat) returns (r: Result<Option<string>>)
      requires Valid()
      modifies this, Repr
      ensures Grown()
      ensures n !in old(classCache) && n in old(serviceData) && !old(serviceData[n].IsLoaded()) && ReportedWithoutLoading(old(serviceData[n]).kind).None?
              && !TruthyReport(old(serviceData[n].IntermediateReport(table))) && !forced && r.Ok? ==>
                classCache == (if old(serviceData[n]).kind.ConfiguredKind? && old(serviceData[n].IntermediateReport(table)).None?
                                  && IsObject(serviceData[n].instance) && Truthy(StrV(ClassOf(serviceData[n].instance).value))
                               then old(classCache)[n := Named(ClassOf(serviceData[n].instance).value)]
                               else old(classCache))
      ensures n !in old(classCache) && n in old(serviceData) && !old(serviceData[n].IsLoaded())
              && ReportedWithoutLoading(old(serviceData[n]).kind).Some?
              && StringParam(ReportedWithoutLoading(old(serviceData[n]).kind).value).Err? ==>
                r.Err? && classCache == old(classCache) && events == old(events)
      ensures classCache == old(classCache)
              || (n !in old(classCache) && n in classCache && classCache == old(classCache)[n := classCache[n]])
      ensures r.Ok? ==> r.value == ClassAnswer(classCache, n)
      ensures n in old(classCache) ==>
                r == Ok(ClassAnswer(old(classCache), n)) && unchanged(this) && Repr == old(Repr) && unchanged(old(Repr))
      ensures n !in old(classCache) && !ServiceExists(n) ==>
                classCache == old(classCache)[n := NotAClass] && r == Ok(None)
                && events == old(events) && Repr == old(Repr) && unchanged(old(Repr))
      ensures n !in old(classCache) && n !in serviceData && n in selfReferenceNames ==>
                classCache == old(classCache)[n := Named(ManagerClass)] && r == Ok(Some(ManagerClass))
                && events == old(events) && Repr == old(Repr) && unchanged(old(Repr))
      ensures n !in old(classCache) && n in serviceData && old(serviceData[n].IsLoaded()) ==>
                classCache == old(classCache)[n := ClassEntry(old(serviceData[n].Instance())).0]
                && events == old(events) + ClassEntry(old(serviceData[n].Instance())).1
                && Repr == old(Repr) && unchanged(old(Repr))
      ensures r.Ok? && forced ==> n in classCache
      ensures n !in old(classCache) && n in serviceData && !forced && !old(serviceData[n].IsLoaded())
              && !old(serviceData[n]).IsServiceAware() ==>
                r == Ok(None) && classCache == old(classCache) && events == old(events) + [UndefinedIndex(n)]
                && Repr == old(Repr) && unchanged(old(Repr))
      ensures n !in old(classCache) && n in serviceData && !old(serviceData[n].IsLoaded())
              && ReportedWithoutLoading(old(serviceData[n]).kind).Some?
              && StringParam(ReportedWithoutLoading(old(serviceData[n]).kind).value).Ok? ==>
                var cls := StringParam(ReportedWithoutLoading(old(serviceData[n]).kind).value).value;
                r == Ok(Some(cls)) && classCache == old(classCache)[n := Named(cls)]
                && events == old(events) && Repr == old(Repr) && unchanged(old(Repr))
      ensures r.Ok? && n !in classCache ==>
                !forced && n in serviceData && |events| > 0 && events[|events| - 1] == UndefinedIndex(n)
      ensures n !in old(classCache) && n in serviceData && !old(serviceData[n].IsLoaded()) && ReportedWithoutLoading(old(serviceData[n]).kind).None?
              && TruthyReport(old(serviceData[n].IntermediateReport(table))) && r.Ok? ==>
                classCache == old(classCache)[n := Named(old(serviceData[n].IntermediateReport(table)).value)]
      ensures n !in old(classCache) && n in serviceData && !old(serviceData[n].IsLoaded()) && ReportedWithoutLoading(old(serviceData[n]).kind).None?
              && !TruthyReport(old(serviceData[n].IntermediateReport(table))) && forced && r.Ok? ==>
                classCache == old(classCache)[n := ClassEntry(serviceData[n].Instance()).0]
    {
      if n in classCache {
        return Ok(ClassAnswer(classCache, n));
      }
      if n in serviceData {
        r := ClassOfRegistered(n, forced, fuel);
        return;
      }
      if n in selfReferenceNames {
        classCache := classCache[n := Named(ManagerClass)];
      } else {
        classCache := classCache[n := NotAClass];
      }
      return Ok(ClassAnswer(classCache, n));
    }

    /**
     * getServiceClass() as written: a self-reference name passes the existence check,
     * but then its (missing) container is read from the service table and asked whether
     * it is loaded, which fails on null.
     */
    method GetServiceClassAsWritten(n: string, forced: bool, fuel: nat) returns (r: Result<Option<string>>)
      requires Valid()
      modifies this, Repr
      ensures Grown()
      ensures n !in old(classCache) && n !in serviceData && n in selfReferenceNames ==>
                r == Err(MemberCallOnNull) && classCache == old(classCache)
                && events == old(events) + [UndefinedIndex(n)]
      ensures !(n !in old(classCache) && n !in serviceData && n in selfReferenceNames) && r.Ok? ==>
                r.value == ClassAnswer(classCache, n)
    {
      if n !in classCache && n !in serviceData && n in selfReferenceNames {
        events := events + [UndefinedIndex(n)];
        return Err(MemberCallOnNull);
      }
      r := GetServiceClass(n, forced, fuel);
    }

    /**
     * What yieldServices yields, in order: the manager itself (see SelfYields), then
     * every registered service that is requested by name or whose class matches.
     */
    ghost predicate Collected(ys: seq<(Option<string>, Entry)>, serviceNames: seq<string>, classNames: seq<string>,
                              includeSubclasses: bool, resolveNow: bool)
      requires Valid()
      reads this
    {
      Listed(ys, SelfYields(serviceNames, classNames, selfReferenceNames).0,
             Chosen(table, classCache, order, serviceNames, classNames, includeSubclasses), serviceData, resolveNow)
    }

    /** One step of yieldServices: whether service n is yielded, and with what. */
    method Offer(n: string, serviceNames: seq<string>, classNames: seq<string>, includeSubclasses: bool,
                 forced: bool, resolveNow: bool, fuel: nat)
      returns (r: Result<Option<Entry>>)
      requires Valid() && n in serviceData
      modifies this, Repr
      ensures Grown()
      ensures classCache == old(classCache)
              || (n !in old(classCache) && n in classCache && classCache == old(classCache)[n := classCache[n]])
      ensures r.Ok? ==> (r.value.Some? <==> Selected(table, classCache, n, serviceNames, classNames, includeSubclasses))
      ensures r.Ok? && r.value.Some? ==> ServiceYield((Some(n), r.value.value), n, serviceData, resolveNow)
    {
      var selected := n in serviceNames;
      if !selected {
        var cls :- GetServiceClass(n, forced, fuel);
        selected := MatchClass(table, cls, classNames, includeSubclasses);
      }
      if !selected {
        return Ok(None);
      }
      if resolveNow {
        var v :- serviceData[n].GetInstance(this, fuel);
        return Ok(Some(Resolved(v)));
      }
      return Ok(Some(Promised(ContainerPromise(serviceData[n]))));
    }

    /**
     * yieldServices(), run to the end by its consumer. The services are visited in
     * registration order; a name that is not requested costs a getServiceClass query.
     * With `resolveNow` the consumer resolves each promise as soon as it is yielded
     * (getServices without OPTION_RETURN_PROMISES), so a later query sees its effects.
     */
    method YieldServices(serviceNames: seq<string>, classNames: seq<string>, includeSubclasses: bool,
                         forced: bool, resolveNow: bool, fuel: nat)
      returns (r: Result<seq<(Option<string>, Entry)>>)
      requires Valid()
      modifies this, Repr
      ensures Grown()
      ensures r.Ok? ==> Collected(r.value, serviceNames, classNames, includeSubclasses, resolveNow)
    {
      var selfKeys := SelfYields(serviceNames, classNames, selfReferenceNames).0;
      var selfPart := seq(|selfKeys|, i requires 0 <= i < |selfKeys| => (selfKeys[i], SelfEntry(resolveNow)));
      var services :- YieldRegistered(serviceNames, classNames, includeSubclasses, forced, resolveNow, fuel);
      ListedAfterSelf(selfPart, selfKeys, services, Chosen(table, classCache, order, serviceNames, classNames, includeSubclasses),
                      serviceData, resolveNow);
      return Ok(selfPart + services);
    }

    /** The loop of yieldServices over the registered services, in registration order. */
    method YieldRegistered(serviceNames: seq<string>, classNames: seq<string>, includeSubclasses: bool,
                           forced: bool, resolveNow: bool, fuel: nat)
      returns (r: Result<seq<(Option<string>, Entry)>>)
      requires Valid()
      modifies this, Repr
      ensures Grown()
      ensures r.Ok? ==> Listed(r.value, [], Chosen(table, classCache, order, serviceNames, classNames, includeSubclasses),
                               serviceData, resolveNow)
    {
      var out := [];
      var names := order;
      ghost var data := serviceData;
      ghost var chosen: seq<string> := [];
      var i := 0;
      while i < |names|
        invariant 0 <= i <= |names|
        invariant Grown() && names == order && data == serviceData
        invariant chosen == Chosen(table, classCache, names[..i], serviceNames, classNames, includeSubclasses)
        invariant Listed(out, [], chosen, data, resolveNow)
      {
        var next;
        next, chosen := YieldStep(names, i, out, chosen, data, serviceNames, classNames, includeSubclasses,
                                  forced, resolveNow, fuel);
        if next.Err? {
          return Err(next.error);
        }
        out := next.value;
        i := i + 1;
      }
      assert names[..i] == names;
      return Ok(out);
    }

    /** One pass of that loop: the service at position i is offered and yielded when selected. */
    method YieldStep(names: seq<string>, i: nat, out: seq<(Option<string>, Entry)>, ghost chosen: seq<string>,
                     ghost data: map<string, Container>, serviceNames: seq<string>, classNames: seq<string>,
                     includeSubclasses: bool, forced: bool, resolveNow: bool, fuel: nat)
      returns (r: Result<seq<(Option<string>, Entry)>>, ghost chosen': seq<string>)
      requires Valid() && i < |names| && names == order && data == serviceData
      requires chosen == Chosen(table, classCache, names[..i], serviceNames, classNames, includeSubclasses)
      requires Listed(out, [], chosen, data, resolveNow)
      modifies this, Repr
      ensures Grown()
      ensures r.Ok? ==> chosen' == Chosen(table, classCache, names[..i + 1], serviceNames, classNames, includeSubclasses)
                        && Listed(r.value, [], chosen', data, resolveNow)
    {
      chosen' := chosen;
      var n := names[i];
      ghost var before := classCache;
      var offered :- Offer(n, serviceNames, classNames, includeSubclasses, forced, resolveNow, fuel);
      ChosenStep(table, before, classCache, names, i, serviceNames, classNames, includeSubclasses);
      if offered.Some? {
        ListedSnoc(out, [], chosen, data, resolveNow, (Some(n), offered.value), n);
        return Ok(out + [(Some(n), offered.value)]), chosen + [n];
      }
      return Ok(out), chosen;
    }

    /** Every requested registered service is among the keys of the assigned yields. */
    lemma RequestedAreKeys(ys: seq<(Option<string>, Entry)>, serviceNames: seq<string>, classNames: seq<string>,
                           includeSubclasses: bool, resolveNow: bool)
      requires Valid() && Collected(ys, serviceNames, classNames, includeSubclasses, resolveNow)
      ensures forall n :: n in serviceNames && n in serviceData ==> n in OrderedMaps.Keys(OrderedMaps.Assign(ArrayPairs(ys)))
    {
      var selfKeys := SelfYields(serviceNames, classNames, selfReferenceNames).0;
      var chosen := Chosen(table, classCache, order, serviceNames, classNames, includeSubclasses);
      forall n | n in serviceNames && n in serviceData
        ensures n in OrderedMaps.Keys(OrderedMaps.Assign(ArrayPairs(ys)))
      {
        assert n in chosen;
        ListedServiceIsKey(ys, selfKeys, chosen, serviceData, resolveNow, n);
      }
    }

    /**
     * getServices(): the yields of yieldServices assigned into an array by name, a null
     * name under "". The option bits choose subclass search, forced class detection and
     * whether promises are returned or resolved at once.
     */
    method GetServices(serviceNames: seq<string>, classNames: seq<string>, options: int, fuel: nat)
      returns (r: Result<seq<(string, Entry)>>, ghost yielded: seq<(Option<string>, Entry)>)
      requires Valid()
      modifies this, Repr
      ensures Grown()
      ensures r.Ok? ==> Collected(yielded, serviceNames, classNames, Bit(options, OptionRecursiveSubclassSearch),
                                  !Bit(options, OptionReturnPromises))
      ensures r.Ok? ==> r.value == OrderedMaps.Assign(ArrayPairs(yielded)) && OrderedMaps.UniqueKeys(r.value)
      ensures r.Ok? ==> forall n :: n in serviceNames && n in serviceData ==> n in OrderedMaps.Keys(r.value)
    {
      var includeSubclasses := Bit(options, OptionRecursiveSubclassSearch);
      var resolveNow := !Bit(options, OptionReturnPromises);
      var got := YieldServices(serviceNames, classNames, includeSubclasses,
                               Bit(options, OptionForceClassDetection), resolveNow, fuel);
      if got.Err? {
        return Err(got.error), [];
      }
      var ys := got.value;
      yielded := ys;
      var services := AssignYields(ys);
      RequestedAreKeys(ys, serviceNames, classNames, includeSubclasses, resolveNow);
      return Ok(services), yielded;
    }

    /** `__get`: get() with the package's own exceptions turned into null. */
    method Fetch(n: string, fuel: nat) returns (r: Result<Value>)
      requires Valid()
      modifies this, Repr
      ensures Evolved()
      ensures r.Err? ==> !IsServiceException(r.error)
      ensures n !in serviceData ==> unchanged(this) && r == Ok(if n in selfReferenceNames then Manager else Null)
      ensures n in serviceData && r.Ok? && Truthy(r.value) ==> r.value == serviceData[n].Instance()
    {
      var got;
      ghost var mid;
      got, mid := Get(n, fuel);
      if got.Err? {
        if IsServiceException(got.error) {
          return Ok(Null);
        }
        return Err(got.error);
      }
      return got;
    }

    /**
     * unregisterService(): a listed service is fetched the way `__get` does (a
     * service exception gives null); when it is truthy its uninstall hook runs if it is
     * a registry service, and its name leaves the list, which becomes dirty.
     * The ghost `mid` is the ledger and the log after the fetch.
     */
    method UnregisterService(n: string, fuel: nat)
      returns (r: Result<()>, ghost fetched: Value, ghost mid: (Lifecycle.Ledger, seq<Event>))
      requires Valid()
      modifies this, Repr
      ensures Valid() && Settings() == old(Settings()) && classCache == old(classCache)
      ensures old(Repr) <= Repr && fresh(Repr - old(Repr))
      ensures n !in old(registeredServices) ==> r == Ok(()) && unchanged(this)
      ensures n in old(registeredServices) && r.Ok? ==>
                && n in mid.0.installed
                && old(events) <= mid.1
                && Ledger() == Lifecycle.AfterUnregister(mid.0, n, Truthy(fetched))
                && events == mid.1 + (if Lifecycle.UninstallFires(mid.0, n, Truthy(fetched), IsRegistryService(fetched))
                                      then [Uninstalled(n)] else [])
      ensures r.Err? ==> !IsServiceException(r.error)
    {
      fetched := Null;
      mid := (Ledger(), events);
      if n !in registeredServices {
        return Ok(()), fetched, mid;
      }
      var got := Fetch(n, fuel);
      if got.Err? {
        return Err(got.error), fetched, mid;
      }
      var service := got.value;
      fetched := service;
      mid := (Ledger(), events);
      Unlist(n, service);
      return Ok(()), fetched, mid;
    }

    /** The end of unregisterService: a truthy service is uninstalled and leaves the list. */
    method Unlist(n: string, service: Value)
      modifies this
      ensures Ledger() == Lifecycle.AfterUnregister(old(Ledger()), n, Truthy(service))
      ensures events == old(events) + (if Lifecycle.UninstallFires(old(Ledger()), n, Truthy(service), IsRegistryService(service))
                                       then [Uninstalled(n)] else [])
      ensures Settings() == old(Settings()) && classCache == old(classCache) && Repr == old(Repr)
    {
      if Truthy(service) && n in registeredServices {
        if IsRegistryService(service) {
          events := events + [Uninstalled(n)];
        }
        registeredServices := Lifecycle.RemoveFirst(registeredServices, n);
        registeredServicesChanges := true;
      }
    }

    /**
     * The constructor with a configuration: the persisted-list file becomes the
     * `sm.initial.file` parameter and its list is loaded; every configuration entry
     * must be an array and becomes a configured container under its key; the services
     * flagged `init` are fetched at the end, in configuration order.
     */
    static method Boot(config: seq<(Key, Value)>, persisted: Option<seq<string>>, table: ClassTable,
                       files: map<string, ScriptResult>, fuel: nat)
      returns (r: Result<ServiceManager>)
      ensures r.Ok? ==> fresh(r.value) && r.value.Valid() && r.value.table == table && r.value.files == files
      ensures r.Ok? ==> r.value.order == ConfigNames(config) && ConfiguredAll(config, r.value.serviceData)
      ensures r.Ok? ==> r.value.parameters == map[InitialFileParameter := StrV(PersistentFile)] && r.value.classCache == map[]
      ensures r.Ok? && persisted.Some? ==> persisted.value <= r.value.registeredServices
      ensures r.Ok? ==> forall n :: n in InitNames(config) ==> n in r.value.registeredServices
      ensures (exists i :: 0 <= i < |config| && !config[i].1.Arr?) ==> r.Err?
      ensures (exists i :: 0 <= i < |config| && config[i].1.Arr? && !Instantiable(config[i].1.entries)) ==> r.Err?
    {
      var m := Start(persisted, table, files);
      var configured := m.Configure(config);
      if configured.Err? {
        return Err(configured.error);
      }
      InitNamesConfigured(config);
      var initialized := m.Initialize(InitNames(config), fuel);
      if initialized.Err? {
        return Err(initialized.error);
      }
      return Ok(m);
    }

    /** The constructor up to its configuration loop: the file parameter and the persisted list. */
    static method Start(persisted: Option<seq<string>>, table: ClassTable, files: map<string, ScriptResult>)
      returns (m: ServiceManager)
      ensures fresh(m) && fresh(m.Repr) && m.Valid() && m.table == table && m.files == files
      ensures m.order == [] && m.serviceData == map[] && m.classCache == map[]
      ensures m.parameters == map[InitialFileParameter := StrV(PersistentFile)]
      ensures m.selfReferenceNames == ["serviceManager", "SERVICES"] && !m.replaceExisting
      ensures m.registeredServices == (if persisted.Some? then persisted.value else [])
    {
      m := new ServiceManager(table, files);
      m.SetParameter(InitialFileParameter, StrV(PersistentFile));
      if persisted.Some? {
        m.registeredServices := persisted.value;
      }
    }

    /** The configuration loop of the constructor: one configured container per entry. */
    method Configure(config: seq<(Key, Value)>) returns (r: Result<()>)
      requires Valid() && order == [] && selfReferenceNames == ["serviceManager", "SERVICES"] && !replaceExisting
      modifies this
      ensures Valid() && old(Repr) <= Repr && fresh(Repr - old(Repr))
      ensures r.Ok? ==> order == ConfigNames(config) && ConfiguredAll(config, serviceData)
      ensures parameters == old(parameters) && classCache == old(classCache) && Ledger() == old(Ledger())
      ensures selfReferenceNames == old(selfReferenceNames) && replaceExisting == old(replaceExisting)
      ensures (exists i :: 0 <= i < |config| && !config[i].1.Arr?) ==> r.Err?
      ensures (exists i :: 0 <= i < |config| && config[i].1.Arr? && !Instantiable(config[i].1.entries)) ==> r.Err?
    {
      var i := 0;
      while i < |config|
        invariant 0 <= i <= |config|
        invariant Valid() && old(Repr) <= Repr && fresh(Repr - old(Repr))
        invariant order == ConfigNames(config[..i]) && ConfiguredAll(config[..i], serviceData)
        invariant forall j :: 0 <= j < i ==> config[j].1.Arr? && Instantiable(config[j].1.entries)
        invariant parameters == old(parameters) && classCache == old(classCache) && Ledger() == old(Ledger())
        invariant selfReferenceNames == old(selfReferenceNames) && replaceExisting == old(replaceExisting)
      {
        r := ConfigureEntry(config, i);
        if r.Err? {
          return;
        }
        ConfigNamesSnoc(config, i);
        forall j | 0 <= j < i + 1
          ensures config[j].1.Arr? && Instantiable(config[j].1.entries)
        {
          if j == i {
            assert config[i].1.Arr? && Instantiable(config[i].1.entries);
          }
        }
        i := i + 1;
      }
      assert config[..i] == config;
      assert forall j :: 0 <= j < |config| ==> config[j].1.Arr? && Instantiable(config[j].1.entries);
      return Ok(());
    }

    /** One pass of that loop: entry i is registered after the first i. */
    method ConfigureEntry(config: seq<(Key, Value)>, i: nat) returns (r: Result<()>)
      requires Valid() && !replaceExisting && i < |config|
      requires ConfiguredAll(config[..i], serviceData)
      modifies this
      ensures Valid() && old(Repr) <= Repr && fresh(Repr - old(Repr))
      ensures r.Ok? ==> order == old(order) + [KeyString(config[i].0)] && ConfiguredAll(config[..i + 1], serviceData)
                        && config[i].1.Arr? && Instantiable(config[i].1.entries)
      ensures !config[i].1.Arr? || !Instantiable(config[i].1.entries) ==> r.Err?
      ensures parameters == old(parameters) && classCache == old(classCache) && Ledger() == old(Ledger())
      ensures selfReferenceNames == old(selfReferenceNames) && replaceExisting == old(replaceExisting)
    {
      ghost var data := serviceData;
      r := AddConfigured(KeyString(config[i].0), config[i].1);
      if r.Ok? {
        ConfiguredAllSnoc(config, i, data, serviceData);
      }
    }

    /** One entry of the configuration loop: an array becomes a configured container under n. */
    method AddConfigured(n: string, sc: Value) returns (r: Result<()>)
      requires Valid() && !replaceExisting
      modifies this
      ensures Valid() && old(Repr) <= Repr && fresh(Repr - old(Repr))
      ensures !sc.Arr? ==> r == Err(BadConfiguration(sc, None))
      ensures sc.Arr? && !Instantiable(sc.entries) ==> r.Err?
      ensures r.Ok? ==> sc.Arr? && Instantiable(sc.entries) && n !in old(serviceData) && n in serviceData
                        && serviceData == old(serviceData)[n := serviceData[n]]
                        && serviceData[n].kind == ConfiguredKind(n, sc.entries)
                        && order == old(order) + [n]
      ensures r.Err? ==> serviceData == old(serviceData) && order == old(order)
      ensures parameters == old(parameters) && classCache == old(classCache) && Ledger() == old(Ledger())
      ensures selfReferenceNames == old(selfReferenceNames) && replaceExisting == old(replaceExisting)
    {
      if !sc.Arr? {
        return Err(BadConfiguration(sc, None));
      }
      var c :- Container.NewConfigured(n, sc.entries);
      r := Set(n, Given(Cont(c)));
    }

    /** The last loop of the constructor: every `init` service is fetched once. */
    method Initialize(init: seq<string>, fuel: nat) returns (r: Result<()>)
      requires Valid() && forall n :: n in init ==> n in serviceData
      modifies this, Repr
      ensures Evolved()
      ensures r.Ok? ==> forall n :: n in init ==> n in registeredServices
    {
      var k := 0;
      while k < |init|
        invariant 0 <= k <= |init|
        invariant Evolved()
        invariant forall j :: 0 <= j < k ==> init[j] in registeredServices
      {
        var got;
        ghost var mid;
        got, mid := Get(init[k], fuel);
        if got.Err? {
          return Err(got.error);
        }
        k := k + 1;
      }
      return Ok(());
    }
  }

  /** The assignment loop of getServices: `$services[$name] = $service` for every yield. */
  method AssignYields(ys: seq<(Option<string>, Entry)>) returns (services: seq<(string, Entry)>)
    ensures services == OrderedMaps.Assign(ArrayPairs(ys))
    ensures OrderedMaps.UniqueKeys(services)
  {
    services := [];
    var i := 0;
    while i < |ys|
      invariant 0 <= i <= |ys|
      invariant services == OrderedMaps.Assign(ArrayPairs(ys[..i]))
    {
      var (name, entry) := ys[i];
      ArrayPairsSnoc(ys, i);
      OrderedMaps.AssignSnoc(ArrayPairs(ys[..i]), ArrayKey(name), entry);
      services := OrderedMaps.Put(services, ArrayKey(name), entry);
      i := i + 1;
    }
    assert ys[..i] == ys;
    OrderedMaps.AssignUnique(ArrayPairs(ys));
  }

  /** The pairs of one more yield. */
  lemma ArrayPairsSnoc(ys: seq<(Option<string>, Entry)>, i: nat)
    requires i < |ys|
    ensures ArrayPairs(ys[..i + 1]) == ArrayPairs(ys[..i]) + [(ArrayKey(ys[i].0), ys[i].1)]
  {
    var a := ArrayPairs(ys[..i + 1]);
    var b := ArrayPairs(ys[..i]) + [(ArrayKey(ys[i].0), ys[i].1)];
    assert |a| == |b|;
    forall j | 0 <= j < |a| ensures a[j] == b[j] {
      assert ys[..i + 1][j] == ys[j];
      if j < i {
        assert ys[..i][j] == ys[j];
      }
    }
  }

  /** Every configuration entry is an array stored as a configured container under its key. */
  predicate ConfiguredAll(config: seq<(Key, Value)>, data: map<string, Container>) {
    forall i :: 0 <= i < |config| ==>
      config[i].1.Arr? && KeyString(config[i].0) in data
      && data[KeyString(config[i].0)].kind == ConfiguredKind(KeyString(config[i].0), config[i].1.entries)
  }

  /** One more configured entry, under a name not taken before. */
  lemma ConfiguredAllSnoc(config: seq<(Key, Value)>, i: nat, data: map<string, Container>, data': map<string, Container>)
    requires i < |config| && ConfiguredAll(config[..i], data)
    requires KeyString(config[i].0) !in data && KeyString(config[i].0) in data'
    requires data' == data[KeyString(config[i].0) := data'[KeyString(config[i].0)]]
    requires config[i].1.Arr? && data'[KeyString(config[i].0)].kind == ConfiguredKind(KeyString(config[i].0), config[i].1.entries)
    ensures ConfiguredAll(config[..i + 1], data')
  {
    forall j | 0 <= j < i + 1
      ensures config[j].1.Arr? && KeyString(config[j].0) in data'
              && data'[KeyString(config[j].0)].kind == ConfiguredKind(KeyString(config[j].0), config[j].1.entries)
    {
      if j < i {
        assert config[..i][j] == config[j];
      }
    }
  }

  lemma ConfigNamesSnoc(config: seq<(Key, Value)>, i: nat)
    requires i < |config|
    ensures ConfigNames(config[..i + 1]) == ConfigNames(config[..i]) + [KeyString(config[i].0)]
  {
    assert config[..i + 1][..i] == config[..i];
  }

  /** The configuration's keys as service names. */
  function ConfigNames(config: seq<(Key, Value)>): (names: seq<string>)
    ensures |names| == |config|
    ensures forall i :: 0 <= i < |config| ==> names[i] == KeyString(config[i].0)
  {
    if config == [] then [] else ConfigNames(config[..|config| - 1]) + [KeyString(config[|config| - 1].0)]
  }

  /** The services whose configuration sets the init flag, in configuration order. */
  function InitNames(config: seq<(Key, Value)>): (names: seq<string>)
    ensures forall n :: n in names ==> exists i :: 0 <= i < |config| && n == KeyString(config[i].0)
  {
    if config == [] then []
    else
      (if config[0].1.Arr? && Truthy(Setting(config[0].1.entries, InitKey)) then [KeyString(config[0].0)] else [])
      + InitNames(config[1..])
  }

  /** Every init name is among the configured names. */
  lemma InitNamesConfigured(config: seq<(Key, Value)>)
    ensures forall n :: n in InitNames(config) ==> n in ConfigNames(config)
  {
    forall n | n in InitNames(config)
      ensures n in ConfigNames(config)
    {
      var i :| 0 <= i < |config| && n == KeyString(config[i].0);
      assert ConfigNames(config)[i] == n;
    }
  }

  /**
   * Asking a fresh manager for the class of "serviceManager": the code as written fails
   * on a null container, where the manager's own class was meant.
   */
  method SelfServiceClassDiscrepancy() returns (asWritten: Result<Option<string>>, intended: Result<Option<string>>)
    ensures asWritten == Err(MemberCallOnNull)
    ensures intended == Ok(Some(ManagerClass))
  {
    var m1 := new ServiceManager(map[], map[]);
    asWritten := m1.GetServiceClassAsWritten("serviceManager", true, 1);
    var m2 := new ServiceManager(map[], map[]);
    intended := m2.GetServiceClass("serviceManager", true, 1);
  }
}
