/** The interpreter's state: the services a running program shares, the
    global namespace and the time limit. */
module States {
  import opened Errors
  import opened Strings
  import opened Namespaces

  /** A service object whose behaviour lies outside this model (the call
      stack, the global scope, the reference and value factories, the
      timer); only its identity matters here. */
  class Service {
    const role: string

    constructor(role: string)
      ensures this.role == role
    {
      this.role := role;
    }
  }

  class PHPState {
    var callStack: Service
    var globalNamespace: Namespace
    var globalScope: Service
    var maxSeconds: int
    var referenceFactory: Service
    var timeoutTime: int
    var timer: Service
    var valueFactory: Service
    /** The timer's reading when the limit was last set. */
    ghost var limitSetAt: int

    /** The global namespace is the root of its chain and the timeout lies
        `maxSeconds` seconds after the moment the limit was set. */
    ghost predicate Valid()
      reads this, globalNamespace
    {
      && globalNamespace.name == "" && globalNamespace.parent == null && globalNamespace.ChainOK()
      && timeoutTime == limitSetAt + maxSeconds * 1000
    }

    /** A new state, where `now` is the timer's reading in milliseconds:
        fresh services, an empty global namespace named `""` without a
        parent, and a limit of one second. */
    constructor(now: int)
      ensures Valid() && limitSetAt == now
      ensures GetMaxSeconds() == 1 && GetTimeoutTime() == now + 1000
      ensures fresh(globalNamespace) && globalNamespace.children == map[]
      ensures globalNamespace.classes == map[] && globalNamespace.functions == map[]
      ensures fresh(callStack) && fresh(globalScope) && fresh(referenceFactory) && fresh(timer) && fresh(valueFactory)
    {
      var stack := new Service("CallStack");
      var clock := new Service("Timer");
      var values := new Service("ValueFactory");
      callStack := stack;
      globalNamespace := new Namespace(null, "");
      globalScope := new Service("Scope");
      maxSeconds := 1;
      referenceFactory := new Service("ReferenceFactory");
      timeoutTime := now + 1000;
      timer := clock;
      valueFactory := values;
      limitSetAt := now;
    }

    function GetCallStack(): Service reads this { callStack }
    function GetGlobalNamespace(): Namespace reads this { globalNamespace }
    function GetGlobalScope(): Service reads this { globalScope }
    function GetMaxSeconds(): int reads this { maxSeconds }
    function GetReferenceFactory(): Service reads this { referenceFactory }
    function GetTimeoutTime(): int reads this { timeoutTime }
    function GetTimer(): Service reads this { timer }
    function GetValueFactory(): Service reads this { valueFactory }

    /** `setTimeLimit`, where `now` is the timer's reading in milliseconds:
        the program may run `seconds` more seconds from now. Nothing but
        the limit changes. */
    method SetTimeLimit(seconds: int, now: int)
      requires Valid()
      modifies this
      ensures Valid() && limitSetAt == now
      ensures GetMaxSeconds() == seconds && GetTimeoutTime() == now + seconds * 1000
      ensures GetCallStack() == old(GetCallStack()) && GetGlobalNamespace() == old(GetGlobalNamespace())
      ensures GetGlobalScope() == old(GetGlobalScope()) && GetReferenceFactory() == old(GetReferenceFactory())
      ensures GetTimer() == old(GetTimer()) && GetValueFactory() == old(GetValueFactory())
    {
      maxSeconds := seconds;
      timeoutTime := now + seconds * 1000;
      limitSetAt := now;
    }
  }

  /** The global namespace of a state is its own global namespace and has
      no prefix. */
  lemma GlobalNamespaceIsRoot(state: PHPState)
    requires state.Valid()
    ensures var g := state.GetGlobalNamespace(); g.Global().Some? && g.Global().value == g && g.Prefix() == ""
    ensures state.GetGlobalNamespace().Ancestor(1) == null
  {
  }

  /** A namespace reached from the global one along a path without empty
      segments has the path as its prefix and the global namespace as its
      global. */
  lemma GlobalDescendant(state: PHPState, tree: Tree, path: string, r: Namespace)
    requires state.Valid() && WellFormed(tree)
    requires var parts := Split(path, '\\');
             Walk(tree, state.GetGlobalNamespace(), parts, |parts|) == Some(r) && forall j :: 0 <= j < |parts| ==> parts[j] != ""
    ensures r.ChainOK() && r.Prefix() == path + "\\"
    ensures r.Global().Some? && r.Global().value == state.GetGlobalNamespace()
  {
    DescendantPrefix(tree, state.GetGlobalNamespace(), path, r);
  }
}
