/** The namespace runtime: a tree of namespaces, each holding the functions
    and classes defined in it, with function lookup through the parent chain,
    case-insensitive class lookup with an autoload hook, and creation of
    descendant namespaces on demand. The call stack and value factory every
    namespace carries are not part of this model; the `E_STRICT` notices that
    go to the call stack are returned instead. */
module Namespaces {
  import opened Errors
  import opened Strings

  // ---------------------------------------------------------------------------
  // Functions and classes.

  /** A function as the namespace stores it: an identity and its number of
      declared parameters (JavaScript's `func.length`). */
  datatype PHPFunction = PHPFunction(id: nat, arity: nat)

  /** What `getFunction` is handed: a name to resolve, or a function already. */
  datatype Callee = ByName(name: string) | Direct(func: PHPFunction)

  /** The class `defineClass` builds: its superclass, its property defaults and
      the methods on its prototype, each method and default an opaque value. */
  datatype ClassValue = ClassValue(superClass: Option<ClassValue>, properties: map<string, nat>, methods: map<string, nat>)

  /** A class definition: the entry of the superclass, if any, the property
      defaults, and the methods in declaration order (the keys of an object,
      hence distinct). */
  datatype ClassDefinition = ClassDefinition(superClass: Option<ClassEntry>, properties: map<string, nat>, methods: seq<(string, nat)>)

  /** What the namespace keeps per class: the constructor method chosen, the
      qualified name, and the class. */
  datatype ClassEntry = ClassEntry(constructorName: Option<string>, name: string, cls: ClassValue)

  const MagicAutoload: string := "__autoload"
  const MagicConstruct: string := "__construct"

  /** The notice raised when a class names its constructor twice. */
  function RedefinitionMessage(className: string): string {
    "Redefining already defined constructor for class " + className
  }

  /** JavaScript truthiness of the constructor name: `null` and `""` are false. */
  predicate Truthy(constructorName: Option<string>) {
    constructorName.Some? && constructorName.value != ""
  }

  /** One method of the definition scanned for the constructor: `__construct`
      always takes the place, with a notice if a constructor was already
      chosen; a method named like the class (case-sensitively) takes it only
      while none is chosen. */
  function ConstructorStep(chosen: (Option<string>, seq<Diagnostic>), methodName: string, className: string): (Option<string>, seq<Diagnostic>) {
    var (c, notices) := chosen;
    var (c1, notices1) :=
      if methodName == MagicConstruct then
        (Some(methodName), if Truthy(c) then notices + [StrictNotice(RedefinitionMessage(className))] else notices)
      else (c, notices);
    if !Truthy(c1) && methodName == className then (Some(methodName), notices1) else (c1, notices1)
  }

  /** The constructor chosen and the notices raised by scanning `methods`
      in order. */
  function ConstructorScan(methods: seq<(string, nat)>, className: string): (chosen: (Option<string>, seq<Diagnostic>))
    ensures forall k :: 0 <= k < |chosen.1| ==> chosen.1[k] == StrictNotice(RedefinitionMessage(className))
    decreases |methods|
  {
    if methods == [] then (None, [])
    else ConstructorStep(ConstructorScan(methods[..|methods| - 1], className), methods[|methods| - 1].0, className)
  }

  /** The prototype the methods are assigned to, in order. */
  function MethodTable(methods: seq<(string, nat)>): (table: map<string, nat>)
    ensures forall k :: 0 <= k < |methods| ==> methods[k].0 in table
    ensures forall m :: m in table ==> m in MethodNames(methods)
    decreases |methods|
  {
    if methods == [] then map[]
    else
      var init, last := methods[..|methods| - 1], methods[|methods| - 1];
      var names := MethodNames(methods);
      assert forall k :: 0 <= k < |init| ==> init[k] == methods[k];
      assert forall m :: m in MethodNames(init) ==> m in names[..|init|];
      MethodTable(init)[last.0 := last.1]
  }

  /** The constructor test `defineClass` applies to one method. */
  method ScanMethod(constructorName: Option<string>, notices: seq<Diagnostic>, methodName: string, className: string)
    returns (constructorName': Option<string>, notices': seq<Diagnostic>)
    ensures (constructorName', notices') == ConstructorStep((constructorName, notices), methodName, className)
  {
    constructorName', notices' := constructorName, notices;
    if methodName == MagicConstruct {
      if Truthy(constructorName') {
        notices' := notices' + [StrictNotice(RedefinitionMessage(className))];
      }
      constructorName' := Some(methodName);
    }
    if !Truthy(constructorName') && methodName == className {
      constructorName' := Some(methodName);
    }
  }

  /** One more method is one more step of the constructor scan and one more
      prototype entry. */
  lemma ScanStep(methods: seq<(string, nat)>, i: nat, className: string)
    requires i < |methods|
    ensures ConstructorScan(methods[..i + 1], className) == ConstructorStep(ConstructorScan(methods[..i], className), methods[i].0, className)
    ensures MethodTable(methods[..i + 1]) == MethodTable(methods[..i])[methods[i].0 := methods[i].1]
  {
    assert methods[..i + 1][..i] == methods[..i];
  }

  function MethodNames(methods: seq<(string, nat)>): (names: seq<string>)
    ensures |names| == |methods| && forall k :: 0 <= k < |methods| ==> names[k] == methods[k].0
  {
    seq(|methods|, k requires 0 <= k < |methods| => methods[k].0)
  }

  predicate DistinctNames(methods: seq<(string, nat)>) {
    forall i, j :: 0 <= i < j < |methods| ==> methods[i].0 != methods[j].0
  }

  /** A method named like the class comes before `__construct`. */
  predicate ClassNamedBeforeConstruct(methods: seq<(string, nat)>, className: string) {
    exists i, j :: 0 <= i < j < |methods| && methods[i].0 == className && methods[j].0 == MagicConstruct
  }

  /** The constructor rule over the methods of a class definition: `__construct`
      wins wherever it stands; otherwise the method named like the class, if
      any. A notice is raised exactly when a (non-empty) class-named method
      came first and was displaced. */
  lemma {:induction false} ConstructorChoice(methods: seq<(string, nat)>, className: string)
    requires DistinctNames(methods)
    ensures ConstructorScan(methods, className).0
            == if MagicConstruct in MethodNames(methods) then Some(MagicConstruct)
               else if className in MethodNames(methods) then Some(className)
               else None
    ensures ConstructorScan(methods, className).1
            == if className != "" && ClassNamedBeforeConstruct(methods, className)
               then [StrictNotice(RedefinitionMessage(className))] else []
    decreases |methods|
  {
    if methods != [] {
      var n := |methods| - 1;
      ConstructorChoice(methods[..n], className);
      NamesSnoc(methods);
      NamedBeforeSnoc(methods, className);
    }
  }

  /** The names of a definition are those of its first methods and the last,
      which is none of the others. */
  lemma NamesSnoc(methods: seq<(string, nat)>)
    requires DistinctNames(methods) && methods != []
    ensures var n := |methods| - 1;
            && DistinctNames(methods[..n])
            && MethodNames(methods) == MethodNames(methods[..n]) + [methods[n].0]
            && methods[n].0 !in MethodNames(methods[..n])
  {
    var n := |methods| - 1;
    var initNames := MethodNames(methods[..n]);
    assert MethodNames(methods) == initNames + [methods[n].0];
  }

  /** A class-named method precedes `__construct` in the whole definition iff
      it does in the first methods, or the last is `__construct` and the first
      methods hold the class-named one. */
  lemma NamedBeforeSnoc(methods: seq<(string, nat)>, className: string)
    requires methods != []
    ensures var n := |methods| - 1;
            ClassNamedBeforeConstruct(methods, className)
            <==> ClassNamedBeforeConstruct(methods[..n], className)
                 || (methods[n].0 == MagicConstruct && className in MethodNames(methods[..n]))
  {
    var n := |methods| - 1;
    var init := methods[..n];
    if ClassNamedBeforeConstruct(methods, className) {
      var i, j :| 0 <= i < j < |methods| && methods[i].0 == className && methods[j].0 == MagicConstruct;
      if j < n {
        assert init[i].0 == className && init[j].0 == MagicConstruct;
      } else {
        assert MethodNames(init)[i] == className;
      }
    }
    if ClassNamedBeforeConstruct(init, className) {
      var i, j :| 0 <= i < j < |init| && init[i].0 == className && init[j].0 == MagicConstruct;
      assert methods[i].0 == className && methods[j].0 == MagicConstruct;
    }
    if methods[n].0 == MagicConstruct && className in MethodNames(init) {
      var i :| 0 <= i < n && MethodNames(init)[i] == className;
      assert methods[i].0 == className;
    }
  }

  /** With distinct names, each method of the definition is on the prototype. */
  lemma {:induction false} MethodTableHolds(methods: seq<(string, nat)>, k: nat)
    requires DistinctNames(methods) && k < |methods|
    ensures MethodTable(methods)[methods[k].0] == methods[k].1
    decreases |methods|
  {
    var n := |methods| - 1;
    if k < n {
      MethodTableHolds(methods[..n], k);
    }
  }

  /** The properties an instance starts with: the superclass constructor runs
      first, then the class's own defaults are assigned over them. */
  function InstanceProperties(cls: ClassValue): (props: map<string, nat>)
    ensures forall p :: p in cls.properties ==> p in props && props[p] == cls.properties[p]
    ensures forall p :: p in props && p !in cls.properties ==>
              cls.superClass.Some? && p in InstanceProperties(cls.superClass.value)
              && props[p] == InstanceProperties(cls.superClass.value)[p]
    decreases cls
  {
    (if cls.superClass.Some? then InstanceProperties(cls.superClass.value) else map[]) + cls.properties
  }

  /** The class `depth` steps up the superclass chain. */
  function SuperAt(cls: ClassValue, depth: nat): Option<ClassValue>
    decreases depth
  {
    if depth == 0 then Some(cls)
    else if cls.superClass.None? then None
    else SuperAt(cls.superClass.value, depth - 1)
  }

  /** A method looked up on an instance: the class's prototype, then its
      superclass's, and so on. */
  function FindMethod(cls: ClassValue, methodName: string): Option<nat>
    decreases cls
  {
    if methodName in cls.methods then Some(cls.methods[methodName])
    else if cls.superClass.None? then None
    else FindMethod(cls.superClass.value, methodName)
  }

  /** The method found is the one of the nearest class in the chain that
      defines it. */
  lemma {:induction false} FindMethodNearest(cls: ClassValue, methodName: string, depth: nat)
    requires SuperAt(cls, depth).Some? && methodName in SuperAt(cls, depth).value.methods
    requires forall d :: 0 <= d < depth ==> SuperAt(cls, d).Some? && methodName !in SuperAt(cls, d).value.methods
    ensures FindMethod(cls, methodName) == Some(SuperAt(cls, depth).value.methods[methodName])
    decreases depth
  {
    if depth > 0 {
      assert SuperAt(cls, 0) == Some(cls);
      var up := cls.superClass.value;
      forall d | 0 <= d < depth - 1
        ensures SuperAt(up, d).Some? && methodName !in SuperAt(up, d).value.methods
      {
        assert SuperAt(cls, d + 1) == SuperAt(up, d);
      }
      FindMethodNearest(up, methodName, depth - 1);
    }
  }

  /** No class in the chain defines the method: it is not found. */
  lemma {:induction false} FindMethodMissing(cls: ClassValue, methodName: string)
    requires forall d: nat :: SuperAt(cls, d).Some? ==> methodName !in SuperAt(cls, d).value.methods
    ensures FindMethod(cls, methodName) == None
    decreases cls
  {
    assert SuperAt(cls, 0) == Some(cls);
    if cls.superClass.Some? {
      var up := cls.superClass.value;
      forall d: nat | SuperAt(up, d).Some?
        ensures methodName !in SuperAt(up, d).value.methods
      {
        assert SuperAt(cls, d + 1) == SuperAt(up, d);
      }
      FindMethodMissing(up, methodName);
    }
  }

  // ---------------------------------------------------------------------------
  // Class lookup.

  /** `getClass` on a namespace whose classes are `classes`: the lowercased
      name is looked up; on a miss the global `__autoload`, if defined, is
      called once with the qualified name (its effect on this namespace is
      `loaded`, the classes it defines here), and the lookup is retried.
      Yields the result, the autoloader's argument if it was called, and the
      classes afterwards. */
  function ClassLookup(classes: map<string, ClassEntry>, hasAutoloader: bool, prefix: string, className: string,
                       loaded: map<string, ClassEntry>): (Result<ClassEntry>, Option<string>, map<string, ClassEntry>)
  {
    var key := Lower(className);
    if key in classes then (Ok(classes[key]), None, classes)
    else
      var (argument, after) := if hasAutoloader then (Some(prefix + className), classes + loaded) else (None, classes);
      if key in after then (Ok(after[key]), argument, after) else (Fail(ClassNotFound(className)), argument, after)
  }

  /** Hits and misses of the lookup: a defined class is returned without the
      autoloader; on a miss the autoloader is called at most once, with the
      qualified name as written; a class still missing afterwards is fatal. */
  lemma ClassLookupOutcome(classes: map<string, ClassEntry>, hasAutoloader: bool, prefix: string, className: string,
                           loaded: map<string, ClassEntry>)
    ensures var (r, argument, after) := ClassLookup(classes, hasAutoloader, prefix, className, loaded);
            && (Lower(className) in classes ==> r == Ok(classes[Lower(className)]) && argument == None && after == classes)
            && (argument.Some? <==> Lower(className) !in classes && hasAutoloader)
            && (argument.Some? ==> argument.value == prefix + className)
            && (r.Fail? <==> Lower(className) !in after)
            && (r.Fail? ==> r.error == ClassNotFound(className))
            && (r.Ok? ==> r.value == after[Lower(className)])
  {
  }

  /** Looking a class up again after it was found hits the same entry and does
      not call the autoloader, whatever case the name is written in. */
  lemma ClassLookupRepeat(classes: map<string, ClassEntry>, hasAutoloader: bool, prefix: string, className: string,
                          loaded: map<string, ClassEntry>, sameName: string, loadedAgain: map<string, ClassEntry>)
    requires ClassLookup(classes, hasAutoloader, prefix, className, loaded).0.Ok?
    requires Lower(sameName) == Lower(className)
    ensures var (r, _, after) := ClassLookup(classes, hasAutoloader, prefix, className, loaded);
            ClassLookup(after, hasAutoloader, prefix, sameName, loadedAgain) == (r, None, after)
  {
  }

  // ---------------------------------------------------------------------------
  // Namespaces.

  /** The function `defineFunction` refuses: in the global namespace, a name
      containing `__autoload` in any letter case for a function that does not
      take exactly one parameter. */
  predicate AutoloadArityViolation(namespaceName: string, functionName: string, func: PHPFunction) {
    namespaceName == "" && Contains(Lower(functionName), MagicAutoload) && func.arity != 1
  }

  class Namespace {
    var children: map<string, Namespace>
    var classes: map<string, ClassEntry>
    var functions: map<string, PHPFunction>
    const name: string
    const parent: Namespace?
    /** Distance to the top of the parent chain. */
    ghost const depth: nat

    /** The parent chain is finite: each parent is one step nearer the top. */
    ghost predicate ChainOK()
      decreases depth
    {
      if parent == null then depth == 0 else parent.depth + 1 == depth && parent.ChainOK()
    }

    constructor(parent: Namespace?, name: string)
      requires parent != null ==> parent.ChainOK()
      ensures this.parent == parent && this.name == name && ChainOK()
      ensures children == map[] && classes == map[] && functions == map[]
    {
      this.parent := parent;
      this.name := name;
      this.depth := if parent == null then 0 else parent.depth + 1;
      children := map[];
      classes := map[];
      functions := map[];
    }

    /** The namespace `k` steps up the parent chain, or null past its top. */
    function Ancestor(k: nat): (a: Namespace?)
      requires ChainOK()
      ensures a != null ==> a.ChainOK()
      decreases depth
    {
      if k == 0 then this else if parent == null then null else parent.Ancestor(k - 1)
    }

    ghost function Ancestors(): (s: set<Namespace>)
      requires ChainOK()
      ensures this in s && forall a :: a in s ==> a.ChainOK()
      decreases depth
    {
      {this} + (if parent == null then {} else parent.Ancestors())
    }

    /** `getPrefix`: the global namespace has no prefix; any other namespace
      the prefix of its parent (none at the top) followed by its name and a
      backslash. */
    function Prefix(): (p: string)
      requires ChainOK()
      ensures name != "" ==> |p| > |name| && p[|p| - 1] == '\\'
      decreases depth
    {
      if name == "" then ""
      else (if parent != null then parent.Prefix() else "") + name + "\\"
    }

    /** `getGlobal`: the nearest namespace named `""` up the chain. `None`
        stands for the TypeError the source raises on reaching the top
        without one. */
    function Global(): (g: Option<Namespace>)
      requires ChainOK()
      ensures g.Some? ==> g.value.name == "" && g.value.ChainOK()
      decreases depth
    {
      if name == "" then Some(this) else if parent == null then None else parent.Global()
    }

    /** The function `name` resolves to from here: the nearest namespace up
        the chain, this one included, that defines it. */
    function FindFunction(functionName: string): Option<PHPFunction>
      requires ChainOK()
      reads Ancestors()
      decreases depth
    {
      if functionName in functions then Some(functions[functionName])
      else if parent == null then None
      else parent.FindFunction(functionName)
    }

    /** The function found is the one of the nearest namespace up the chain
        that defines it. */
    lemma {:induction false} FindFunctionNearest(functionName: string, k: nat)
      requires ChainOK() && Ancestor(k) != null && functionName in Ancestor(k).functions
      requires forall j :: 0 <= j < k ==> Ancestor(j) != null && functionName !in Ancestor(j).functions
      ensures FindFunction(functionName) == Some(Ancestor(k).functions[functionName])
      decreases depth
    {
      if k > 0 {
        assert Ancestor(0) == this;
        forall j | 0 <= j < k - 1
          ensures parent.Ancestor(j) != null && functionName !in parent.Ancestor(j).functions
        {
          assert Ancestor(j + 1) == parent.Ancestor(j);
        }
        parent.FindFunctionNearest(functionName, k - 1);
      }
    }

    /** No namespace up the chain defines the function: it is not found. */
    lemma {:induction false} FindFunctionMissing(functionName: string)
      requires ChainOK()
      requires forall k: nat :: Ancestor(k) != null ==> functionName !in Ancestor(k).functions
      ensures FindFunction(functionName) == None
      decreases depth
    {
      assert Ancestor(0) == this;
      if parent != null {
        forall k: nat | parent.Ancestor(k) != null
          ensures functionName !in parent.Ancestor(k).functions
        {
          assert Ancestor(k + 1) == parent.Ancestor(k);
        }
        parent.FindFunctionMissing(functionName);
      }
    }

    /** The global namespace is the nearest one up the chain named `""`. */
    lemma {:induction false} GlobalNearest(k: nat)
      requires ChainOK() && Ancestor(k) != null && Ancestor(k).name == ""
      requires forall j :: 0 <= j < k ==> Ancestor(j) != null && Ancestor(j).name != ""
      ensures Global().Some? && Global().value == Ancestor(k)
      decreases depth
    {
      if k > 0 {
        assert Ancestor(0) == this;
        forall j | 0 <= j < k - 1
          ensures parent.Ancestor(j) != null && parent.Ancestor(j).name != ""
        {
          assert Ancestor(j + 1) == parent.Ancestor(j);
        }
        parent.GlobalNearest(k - 1);
      }
    }

    /** A chain with no namespace named `""` has no global namespace. */
    lemma {:induction false} GlobalMissing()
      requires ChainOK()
      requires forall k: nat :: Ancestor(k) != null ==> Ancestor(k).name != ""
      ensures Global() == None
      decreases depth
    {
      assert Ancestor(0) == this;
      if parent != null {
        forall k: nat | parent.Ancestor(k) != null
          ensures parent.Ancestor(k).name != ""
        {
          assert Ancestor(k + 1) == parent.Ancestor(k);
        }
        parent.GlobalMissing();
      }
    }

    /** `getFunction`: a function is returned as it is; a name is looked up
        in this namespace and then in each parent, and is fatal if none
        defines it. */
    method GetFunction(callee: Callee) returns (r: Result<PHPFunction>)
      requires ChainOK()
      ensures callee.Direct? ==> r == Ok(callee.func)
      ensures callee.ByName? ==>
                r == match FindFunction(callee.name)
                     case Some(f) => Ok(f)
                     case None => Fail(CallToUndefinedFunction(callee.name))
    {
      if callee.Direct? {
        return Ok(callee.func);
      }
      var functionName := callee.name;
      var namespace: Namespace? := this;
      while namespace != null && functionName !in namespace.functions
        invariant namespace != null ==> namespace.ChainOK() && namespace.FindFunction(functionName) == FindFunction(functionName)
        invariant namespace == null ==> FindFunction(functionName) == None
        decreases if namespace == null then 0 else namespace.depth + 1
      {
        namespace := namespace.parent;
      }
      if namespace == null {
        return Fail(CallToUndefinedFunction(functionName));
      }
      return Ok(namespace.functions[functionName]);
    }

    /** `defineFunction`: stores the function under its name, unless this is
        the global namespace and the function is an autoloader that does not
        take exactly one parameter. */
    method DefineFunction(functionName: string, func: PHPFunction) returns (error: Option<FatalError>)
      requires ChainOK()
      modifies this
      ensures AutoloadArityViolation(name, functionName, func) ==>
                error == Some(ExpectExactly1Arg(Lower(functionName))) && functions == old(functions)
      ensures !AutoloadArityViolation(name, functionName, func) ==>
                error == None && functions == old(functions)[functionName := func]
                && FindFunction(functionName) == Some(func)
      ensures children == old(children) && classes == old(classes)
    {
      if name == "" {
        if Contains(Lower(functionName), MagicAutoload) && func.arity != 1 {
          return Some(ExpectExactly1Arg(Lower(functionName)));
        }
      }
      functions := functions[functionName := func];
      return None;
    }

    /** `defineClass`: scans the methods for the constructor, puts them on
        the prototype, and stores the class under its lowercased name with
        its qualified name. Returns the notices raised on the way. */
    method DefineClass(className: string, definition: ClassDefinition) returns (notices: seq<Diagnostic>)
      requires ChainOK()
      modifies this
      ensures var superClass := if definition.superClass.Some? then Some(definition.superClass.value.cls) else None;
              var cls := ClassValue(superClass, definition.properties, MethodTable(definition.methods));
              var chosen := ConstructorScan(definition.methods, className);
              notices == chosen.1
              && classes == old(classes)[Lower(className) := ClassEntry(chosen.0, Prefix() + className, cls)]
      ensures children == old(children) && functions == old(functions)
    {
      var constructorName: Option<string> := None;
      var prototype: map<string, nat> := map[];
      notices := [];
      var methods := definition.methods;
      for i := 0 to |methods|
        invariant (constructorName, notices) == ConstructorScan(methods[..i], className)
        invariant prototype == MethodTable(methods[..i])
        invariant unchanged(this)
      {
        var (methodName, body) := methods[i];
        ScanStep(methods, i, className);
        constructorName, notices := ScanMethod(constructorName, notices, methodName, className);
        prototype := prototype[methodName := body];
      }
      assert methods[..|methods|] == methods;
      var superClass := if definition.superClass.Some? then Some(definition.superClass.value.cls) else None;
      classes := classes[Lower(className) := ClassEntry(constructorName, Prefix() + className, ClassValue(superClass, definition.properties, prototype))];
    }

    /** `getClass`: the lookup of `ClassLookup`, where the autoloader is the
        global namespace's `__autoload` and its effect on this namespace is to
        define the classes in `loaded`. */
    method GetClass(className: string, loaded: map<string, ClassEntry>) returns (r: Result<ClassEntry>, autoloadArgument: Option<string>)
      requires ChainOK() && Global().Some?
      modifies this
      ensures (r, autoloadArgument, classes)
              == ClassLookup(old(classes), MagicAutoload in old(Global().value.functions), Prefix(), className, loaded)
      ensures children == old(children) && functions == old(functions)
    {
      var lowerName := Lower(className);
      autoloadArgument := None;
      if lowerName !in classes {
        var global := Global().value;
        if MagicAutoload in global.functions {
          autoloadArgument := Some(Prefix() + className);
          classes := classes + loaded;
        }
        if lowerName !in classes {
          return Fail(ClassNotFound(className)), autoloadArgument;
        }
      }
      return Ok(classes[lowerName]), autoloadArgument;
    }

    /** A new namespace, named `part`, as a child of this one. */
    method NewChild(part: string, ghost tree: Tree) returns (child: Namespace, ghost tree': Tree)
      requires this in tree && Mirrors(tree) && ChainOK()
      modifies this`children
      ensures fresh(child) && child.parent == this && child.name == part && child.ChainOK()
      ensures children == old(children)[part := child]
      ensures tree' == WithChild(tree, this, part, child) && Mirrors(tree')
    {
      child := new Namespace(this, part);
      children := children[part := child];
      tree' := WithChild(tree, this, part, child);
    }

    /** `getDescendant`: follows the backslash-separated segments of `path`
        down the children, creating each missing one as a child named after
        the segment. `tree` is the children of every namespace reachable from
        here, as a value; `tree'` is the same after the call, and `created`
        the namespaces the call made. */
    method GetDescendant(path: string, ghost tree: Tree) returns (r: Namespace, ghost tree': Tree, ghost created: set<Namespace>)
      requires this in tree && WellFormed(tree) && Mirrors(tree)
      modifies tree.Keys`children
      ensures WellFormed(tree') && Mirrors(tree') && Extends(tree, tree')
      ensures tree'.Keys == tree.Keys + created && tree.Keys !! created
      ensures forall n :: n in created ==> fresh(n)
      ensures forall n :: n in tree ==> n.classes == old(n.classes) && n.functions == old(n.functions)
      ensures var parts := Split(path, '\\'); Walk(tree', this, parts, |parts|) == Some(r)
      ensures var parts := Split(path, '\\'); Walk(tree, this, parts, |parts|).Some? ==> tree' == tree
      ensures var parts := Split(path, '\\'); |created| == |parts| - Resolved(tree, this, parts, |parts|)
      ensures r.ChainOK()
      ensures var parts := Split(path, '\\');
              (forall j :: 0 <= j < |parts| ==> parts[j] != "") ==> r.Prefix() == Prefix() + path + "\\"
    {
      var parts := Split(path, '\\');
      r, tree', created := Descend(parts, tree);
      if forall j :: 0 <= j < |parts| ==> parts[j] != "" {
        DescendantPrefix(tree', this, path, r);
      }
    }

    /** The walk of `getDescendant` over the segments. */
    method Descend(parts: seq<string>, ghost tree: Tree) returns (r: Namespace, ghost tree': Tree, ghost created: set<Namespace>)
      requires this in tree && WellFormed(tree) && Mirrors(tree)
      modifies tree.Keys`children
      ensures Descent(tree, tree', created, this, parts, |parts|, r) && Mirrors(tree')
      ensures forall n :: n in created ==> fresh(n)
    {
      r := this;
      tree', created := tree, {};
      for i := 0 to |parts|
        invariant Descent(tree, tree', created, this, parts, i, r)
        invariant Mirrors(tree')
        invariant forall n :: n in created ==> fresh(n)
      {
        r, tree', created := DescendStep(tree, tree', created, parts, i, r);
      }
    }

    /** One segment of the walk: to the existing child, or to a new one. */
    method DescendStep(ghost tree: Tree, ghost tree': Tree, ghost created: set<Namespace>, parts: seq<string>, i: nat, n: Namespace)
      returns (r: Namespace, ghost tree'': Tree, ghost created': set<Namespace>)
      requires Descent(tree, tree', created, this, parts, i, n) && i < |parts| && Mirrors(tree')
      modifies n`children
      ensures Descent(tree, tree'', created', this, parts, i + 1, r) && Mirrors(tree'')
      ensures created' == created || (created' == created + {r} && fresh(r))
    {
      if parts[i] !in n.children {
        r, tree'', created' := DescendIntoNew(tree, tree', created, parts, i, n);
      } else {
        DescendExisting(tree, tree', created, this, parts, i, n);
        r, tree'', created' := n.children[parts[i]], tree', created;
      }
    }

    /** The segment is missing: a child is created for it. */
    method DescendIntoNew(ghost tree: Tree, ghost tree': Tree, ghost created: set<Namespace>, parts: seq<string>, i: nat, n: Namespace)
      returns (child: Namespace, ghost tree'': Tree, ghost created': set<Namespace>)
      requires Descent(tree, tree', created, this, parts, i, n) && i < |parts| && Mirrors(tree')
      requires parts[i] !in n.children
      modifies n`children
      ensures Descent(tree, tree'', created', this, parts, i + 1, child) && Mirrors(tree'')
      ensures created' == created + {child} && fresh(child)
    {
      child, tree'' := n.NewChild(parts[i], tree');
      DescendNew(tree, tree', created, this, parts, i, n, child);
      created' := created + {child};
    }
  }

  // ---------------------------------------------------------------------------
  // The namespace tree as a value.

  /** The children of each namespace of a region. */
  type Tree = map<Namespace, map<string, Namespace>>

  /** Closed under children; each child has its parent and its segment as
      name; every parent chain is finite. */
  ghost predicate WellFormed(tree: Tree) {
    && (forall n, part :: n in tree && part in tree[n] ==> tree[n][part] in tree)
    && (forall n, part :: n in tree && part in tree[n] ==> tree[n][part].parent == n && tree[n][part].name == part)
    && (forall n :: n in tree ==> n.ChainOK())
  }

  /** The value agrees with the heap. */
  ghost predicate Mirrors(tree: Tree)
    reads tree.Keys
  {
    forall n :: n in tree ==> n.children == tree[n]
  }

  /** `after` keeps every namespace and child of `before`. */
  ghost predicate Extends(before: Tree, after: Tree) {
    forall n :: n in before ==> n in after && forall part :: part in before[n] ==> part in after[n] && after[n][part] == before[n][part]
  }

  /** The namespace reached from `start` along the first `i` segments of
      `parts`, if each of them exists. */
  ghost function Walk(tree: Tree, start: Namespace, parts: seq<string>, i: nat): Option<Namespace>
    requires i <= |parts|
  {
    if i == 0 then Some(start)
    else match Walk(tree, start, parts, i - 1)
      case None => None
      case Some(n) => if n in tree && parts[i - 1] in tree[n] then Some(tree[n][parts[i - 1]]) else None
  }

  /** The number of leading segments, among the first `i`, that exist. */
  ghost function Resolved(tree: Tree, start: Namespace, parts: seq<string>, i: nat): (k: nat)
    requires i <= |parts|
    ensures k <= i
  {
    if i == 0 || Walk(tree, start, parts, i).Some? then i else Resolved(tree, start, parts, i - 1)
  }

  /** The state of the descent after `i` segments: at `n`, in a well-formed
      extension of `tree` that differs from it only if the walk left the
      namespaces that existed, and then by one new namespace per segment
      since. */
  ghost predicate Descent(tree: Tree, tree': Tree, created: set<Namespace>, start: Namespace, parts: seq<string>, i: nat, n: Namespace) {
    && i <= |parts| && n in tree' && WellFormed(tree') && Extends(tree, tree')
    && Walk(tree', start, parts, i) == Some(n)
    && (Walk(tree, start, parts, i).Some? ==> tree' == tree)
    && (Walk(tree, start, parts, i).None? ==> n !in tree && tree'[n] == map[])
    && tree'.Keys == tree.Keys + created && tree.Keys !! created
    && |created| == i - Resolved(tree, start, parts, i)
  }

  /** The next segment exists: the descent moves to it. */
  lemma DescendExisting(tree: Tree, tree': Tree, created: set<Namespace>, start: Namespace, parts: seq<string>, i: nat, n: Namespace)
    requires Descent(tree, tree', created, start, parts, i, n) && i < |parts| && parts[i] in tree'[n]
    ensures Descent(tree, tree', created, start, parts, i + 1, tree'[n][parts[i]])
  {
  }

  /** The next segment is missing: a fresh child is added for it. */
  lemma DescendNew(tree: Tree, tree': Tree, created: set<Namespace>, start: Namespace, parts: seq<string>, i: nat,
                   n: Namespace, child: Namespace)
    requires Descent(tree, tree', created, start, parts, i, n) && i < |parts| && parts[i] !in tree'[n]
    requires child !in tree' && child.parent == n && child.name == parts[i] && child.ChainOK()
    ensures Descent(tree, WithChild(tree', n, parts[i], child), created + {child}, start, parts, i + 1, child)
  {
    var after := WithChild(tree', n, parts[i], child);
    AddChild(tree, tree', after, n, parts[i], child);
    NewChildWalks(tree', after, start, parts, i, n, child);
    NewChildLeavesTree(tree, tree', start, parts, i, n);
    NewChildCounted(tree, tree', created, start, parts, i, child);
  }

  lemma NewChildWalks(tree': Tree, after: Tree, start: Namespace, parts: seq<string>, i: nat, n: Namespace, child: Namespace)
    requires i < |parts| && Walk(tree', start, parts, i) == Some(n) && Extends(tree', after)
    requires n in after && parts[i] in after[n] && after[n][parts[i]] == child
    ensures Walk(after, start, parts, i + 1) == Some(child)
  {
    WalkExtends(tree', after, start, parts, i);
  }

  lemma NewChildLeavesTree(tree: Tree, tree': Tree, start: Namespace, parts: seq<string>, i: nat, n: Namespace)
    requires i < |parts| && Walk(tree', start, parts, i) == Some(n) && n in tree' && parts[i] !in tree'[n]
    requires Walk(tree, start, parts, i).Some? ==> tree' == tree
    ensures Walk(tree, start, parts, i + 1).None?
  {
  }

  lemma NewChildCounted(tree: Tree, tree': Tree, created: set<Namespace>, start: Namespace, parts: seq<string>, i: nat,
                        child: Namespace)
    requires i < |parts| && Walk(tree, start, parts, i + 1).None?
    requires tree'.Keys == tree.Keys + created && tree.Keys !! created && child !in tree'
    requires |created| == i - Resolved(tree, start, parts, i)
    ensures tree'.Keys + {child} == tree.Keys + (created + {child}) && tree.Keys !! (created + {child})
    ensures |created + {child}| == i + 1 - Resolved(tree, start, parts, i + 1)
  {
  }

  /** `tree` with `child` added under `part` to `n`, itself without children. */
  ghost function WithChild(tree: Tree, n: Namespace, part: string, child: Namespace): Tree
    requires n in tree
  {
    tree[n := tree[n][part := child]][child := map[]]
  }

  /** Adding a fresh child keeps the tree well formed and extends it. */
  lemma AddChild(tree: Tree, before: Tree, after: Tree, n: Namespace, part: string, child: Namespace)
    requires WellFormed(before) && Extends(tree, before) && n in before && part !in before[n]
    requires child !in before && child.parent == n && child.name == part && child.ChainOK()
    requires after == before[n := before[n][part := child]][child := map[]]
    ensures WellFormed(after) && Extends(tree, after) && Extends(before, after)
    ensures after.Keys == before.Keys + {child}
  {
  }

  /** Walks that exist survive any extension of the tree. */
  lemma {:induction false} WalkExtends(before: Tree, after: Tree, start: Namespace, parts: seq<string>, i: nat)
    requires i <= |parts| && Extends(before, after) && Walk(before, start, parts, i).Some?
    ensures Walk(after, start, parts, i) == Walk(before, start, parts, i)
  {
    if i > 0 {
      WalkExtends(before, after, start, parts, i - 1);
    }
  }

  /** The prefix the segments `parts` add: each followed by a backslash. */
  function QualifiedPrefix(parts: seq<string>): string
    decreases |parts|
  {
    if parts == [] then "" else parts[0] + "\\" + QualifiedPrefix(parts[1..])
  }

  lemma {:induction false} QualifiedPrefixSnoc(parts: seq<string>, part: string)
    ensures QualifiedPrefix(parts + [part]) == QualifiedPrefix(parts) + part + "\\"
    decreases |parts|
  {
    if parts != [] {
      assert (parts + [part])[1..] == parts[1..] + [part];
      QualifiedPrefixSnoc(parts[1..], part);
    }
  }

  /** A path's segments add the path itself and a backslash. */
  lemma {:induction false} QualifiedPrefixOfSplit(path: string)
    ensures QualifiedPrefix(Split(path, '\\')) == path + "\\"
  {
    JoinSplit(path, '\\');
    QualifiedPrefixJoin(Split(path, '\\'));
  }

  lemma {:induction false} QualifiedPrefixJoin(parts: seq<string>)
    requires |parts| >= 1
    ensures QualifiedPrefix(parts) == Join(parts, "\\") + "\\"
    decreases |parts|
  {
    if |parts| > 1 {
      QualifiedPrefixJoin(parts[1..]);
    }
  }

  /** Walking named (non-empty) segments down a well-formed tree extends the
      prefix by those segments. */
  lemma {:induction false} WalkPrefix(tree: Tree, start: Namespace, parts: seq<string>, i: nat, r: Namespace)
    requires i <= |parts| && WellFormed(tree) && start.ChainOK() && Walk(tree, start, parts, i) == Some(r)
    requires forall j :: 0 <= j < i ==> parts[j] != ""
    ensures r.ChainOK() && r.Prefix() == start.Prefix() + QualifiedPrefix(parts[..i]) && r.Global() == start.Global()
  {
    if i > 0 {
      var n := Walk(tree, start, parts, i - 1).value;
      WalkPrefix(tree, start, parts, i - 1, n);
      ChildPrefix(tree, n, parts[i - 1]);
      assert parts[..i] == parts[..i - 1] + [parts[i - 1]];
      QualifiedPrefixSnoc(parts[..i - 1], parts[i - 1]);
      PrefixStep(start.Prefix(), QualifiedPrefix(parts[..i - 1]), QualifiedPrefix(parts[..i]), n.Prefix(), r.Prefix(), parts[i - 1]);
    }
  }

  lemma PrefixStep(startPrefix: string, before: string, after: string, parentPrefix: string, childPrefix: string, part: string)
    requires parentPrefix == startPrefix + before && after == before + part + "\\"
    requires childPrefix == parentPrefix + part + "\\"
    ensures childPrefix == startPrefix + after
  {
  }

  /** A named child extends its parent's prefix by its name and shares its
      parent's global namespace. */
  lemma ChildPrefix(tree: Tree, n: Namespace, part: string)
    requires WellFormed(tree) && n in tree && part in tree[n] && part != ""
    ensures var child := tree[n][part];
            child.ChainOK() && n.ChainOK() && child.Prefix() == n.Prefix() + part + "\\" && child.Global() == n.Global()
  {
  }

  /** `getDescendant` of a path without empty segments lands on the
      namespace whose prefix is this one's followed by the path, and which
      shares this one's global namespace. */
  lemma DescendantPrefix(tree: Tree, start: Namespace, path: string, r: Namespace)
    requires WellFormed(tree) && start.ChainOK()
    requires var parts := Split(path, '\\'); Walk(tree, start, parts, |parts|) == Some(r) && forall j :: 0 <= j < |parts| ==> parts[j] != ""
    ensures r.ChainOK() && r.Prefix() == start.Prefix() + path + "\\" && r.Global() == start.Global()
  {
    var parts := Split(path, '\\');
    WalkPrefix(tree, start, parts, |parts|, r);
    assert parts[..|parts|] == parts;
    QualifiedPrefixOfSplit(path);
  }
}
