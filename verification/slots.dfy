/** Structural layouts of types, and reading a namespace object through a slot map. */
module Slots {

  import opened Options
  import opened Text

  // Names in order.

  /** Sorted, and so without duplicates. */
  predicate Sorted(names: seq<string>)
  {
    forall i, j :: 0 <= i < j < |names| ==> Less(names[i], names[j])
  }

  /** A set of names has one sorted listing. */
  lemma {:induction false} SortedUnique(a: seq<string>, b: seq<string>)
    requires Sorted(a) && Sorted(b) && forall n :: n in a <==> n in b
    ensures a == b
    decreases a
  {
    if a == [] {
      if b != [] {
        SomeMember(b);
        assert false;
      }
    } else {
      assert a[0] in a && a[0] in b;
      assert b[0] in b && b[0] in a;
      var i :| 0 <= i < |b| && b[i] == a[0];
      var j :| 0 <= j < |a| && a[j] == b[0];
      SameFirst(a, b, i, j);
      RestSame(a, b);
      RestSame(b, a);
      SortedUnique(a[1..], b[1..]);
      assert a == [a[0]] + a[1..] && b == [b[0]] + b[1..];
    }
  }

  lemma {:induction false} SomeMember(a: seq<string>)
    requires a != []
    ensures exists n :: n in a
  {
    assert a[0] in a;
  }

  lemma {:induction false} SameFirst(a: seq<string>, b: seq<string>, i: nat, j: nat)
    requires Sorted(a) && Sorted(b) && i < |b| && j < |a| && b[i] == a[0] && a[j] == b[0]
    ensures a[0] == b[0]
  {
    if i > 0 && j > 0 {
      LessTransitive(a[0], a[j], b[i]);
      LessIrreflexive(a[0]);
      assert false;
    }
  }

  lemma {:induction false} RestSame(a: seq<string>, b: seq<string>)
    requires a != [] && b != [] && a[0] == b[0] && Sorted(a) && forall n :: n in a ==> n in b
    ensures forall n :: n in a[1..] ==> n in b[1..]
  {
    forall n | n in a[1..] ensures n in b[1..] {
      var i :| 0 <= i < |a[1..]| && a[1..][i] == n;
      assert a[i + 1] == n && n in a;
      LessIrreflexive(n);
      var j :| 0 <= j < |b| && b[j] == n;
      assert j > 0;
      assert b[1..][j - 1] == n;
    }
  }

  /** Puts a name in its place. */
  method Insert(names: seq<string>, name: string) returns (r: seq<string>)
    requires Sorted(names)
    ensures Sorted(r) && forall n :: n in r <==> n in names || n == name
  {
    var i := 0;
    while i < |names| && Less(names[i], name)
      invariant i <= |names| && forall k :: 0 <= k < i ==> Less(names[k], name)
    {
      i := i + 1;
    }
    if i < |names| && names[i] == name {
      return names;
    }
    if i < |names| {
      LessTotal(names[i], name);
      forall k | i <= k < |names| ensures Less(name, names[k]) {
        if i < k { LessTransitive(name, names[i], names[k]); }
      }
    }
    r := names[..i] + [name] + names[i..];
    Spliced(names, i, name, r);
  }

  lemma {:induction false} Spliced(names: seq<string>, i: nat, name: string, r: seq<string>)
    requires Sorted(names) && i <= |names| && r == names[..i] + [name] + names[i..]
    requires forall k :: 0 <= k < i ==> Less(names[k], name)
    requires forall k :: i <= k < |names| ==> Less(name, names[k])
    ensures Sorted(r) && forall n :: n in r <==> n in names || n == name
  {
    forall a, b | 0 <= a < b < |r| ensures Less(r[a], r[b]) {
      assert r[a] == if a < i then names[a] else if a == i then name else names[a - 1];
      assert r[b] == if b < i then names[b] else if b == i then name else names[b - 1];
    }
    SplicedMembers(names, i, name, r);
  }

  lemma {:induction false} SplicedMembers(names: seq<string>, i: nat, name: string, r: seq<string>)
    requires i <= |names| && r == names[..i] + [name] + names[i..]
    ensures forall n :: n in r <==> n in names || n == name
  {
    assert names == names[..i] + names[i..];
  }

  // The member names of a type.

  /** Types with references already looked up; a failed look-up and every other type is Opaque. */
  datatype Type =
    | Object(properties: seq<string>)
    | Nominal(properties: seq<string>, methods: seq<string>)
    | Union(members: seq<Type>)
    | Variable(constraint: Option<Type>, fallback: Option<Type>)
    | Wrapped(base: Type)
    | Opaque

  datatype Wanted = Fields | Methods

  /** Whether a type has members of the wanted kind to speak of. */
  predicate Found(t: Type, wanted: Wanted)
    decreases t
  {
    match t
    case Object(_) => wanted.Fields?
    case Nominal(_, _) => true
    case Union(members) => exists i :: 0 <= i < |members| && Found(members[i], wanted)
    case Variable(constraint, fallback) =>
      (constraint.Some? && Found(constraint.value, wanted)) || (fallback.Some? && Found(fallback.value, wanted))
    case Wrapped(base) => Found(base, wanted)
    case Opaque => false
  }

  /** The type has this name among its members of the wanted kind. */
  predicate HasName(t: Type, wanted: Wanted, name: string)
    decreases t
  {
    match t
    case Object(properties) => wanted.Fields? && name in properties
    case Nominal(properties, methods) => (wanted.Fields? && name in properties) || name in methods
    case Union(members) => exists i :: 0 <= i < |members| && HasName(members[i], wanted, name)
    case Variable(constraint, fallback) =>
      if constraint.Some? && Found(constraint.value, wanted) then HasName(constraint.value, wanted, name)
      else fallback.Some? && HasName(fallback.value, wanted, name)
    case Wrapped(base) => HasName(base, wanted, name)
    case Opaque => false
  }

  /** The names of plain types, and of a union of two types. */
  lemma {:induction false} PlainNames(properties: seq<string>, methods: seq<string>, a: Type, b: Type, wanted: Wanted, name: string)
    ensures HasName(Object(properties), wanted, name) <==> wanted == Fields && name in properties
    ensures HasName(Nominal(properties, methods), Fields, name) <==> name in properties + methods
    ensures HasName(Nominal(properties, methods), Methods, name) <==> name in methods
    ensures HasName(Union([a, b]), wanted, name) <==> HasName(a, wanted, name) || HasName(b, wanted, name)
  {
    var both := Union([a, b]);
    assert both.members[0] == a && both.members[1] == b;
  }

  /** A type without members of a kind has no names of that kind. */
  lemma {:induction false} NamesOnlyIfFound(t: Type, wanted: Wanted, name: string)
    requires HasName(t, wanted, name)
    ensures Found(t, wanted)
    decreases t
  {
    match t
    case Union(members) =>
      var i :| 0 <= i < |members| && HasName(members[i], wanted, name);
      NamesOnlyIfFound(members[i], wanted, name);
    case Variable(constraint, fallback) =>
      if !(constraint.Some? && Found(constraint.value, wanted)) { NamesOnlyIfFound(fallback.value, wanted, name); }
    case Wrapped(base) => NamesOnlyIfFound(base, wanted, name);
    case _ =>
  }

  method InsertAll(out: seq<string>, names: seq<string>) returns (r: seq<string>)
    requires Sorted(out)
    ensures Sorted(r) && forall n :: n in r <==> n in out || n in names
  {
    r := out;
    var i := 0;
    while i < |names|
      invariant i <= |names| && Sorted(r) && forall n :: n in r <==> n in out || n in names[..i]
    {
      r := Insert(r, names[i]);
      assert names[..i + 1] == names[..i] + [names[i]];
      i := i + 1;
    }
    assert names[..i] == names;
  }

  /** Adds a type's names of the wanted kind to the ordered set, and tells whether it has members. */
  method Collect(t: Type, wanted: Wanted, out: seq<string>) returns (found: bool, r: seq<string>)
    requires Sorted(out)
    ensures found == Found(t, wanted)
    ensures Sorted(r) && forall n :: n in r <==> n in out || HasName(t, wanted, n)
    decreases t
  {
    found, r := false, out;
    match t
    case Object(properties) =>
      if wanted == Fields {
        r := InsertAll(r, properties);
        found := true;
      }
    case Nominal(properties, methods) =>
      if wanted == Fields {
        r := InsertAll(r, properties);
      }
      r := InsertAll(r, methods);
      found := true;
    case Union(members) =>
      var i := 0;
      while i < |members|
        invariant i <= |members| && Sorted(r)
        invariant found <==> exists k :: 0 <= k < i && Found(members[k], wanted)
        invariant forall n :: n in r <==> n in out || exists k :: 0 <= k < i && HasName(members[k], wanted, n)
      {
        var any;
        any, r := Collect(members[i], wanted, r);
        found := found || any;
        i := i + 1;
      }
    case Variable(constraint, fallback) =>
      if constraint.Some? {
        found, r := Collect(constraint.value, wanted, r);
        if !found {
          forall n | HasName(constraint.value, wanted, n) ensures false { NamesOnlyIfFound(constraint.value, wanted, n); }
        }
      }
      if !found && fallback.Some? {
        found, r := Collect(fallback.value, wanted, r);
      }
    case Wrapped(base) =>
      found, r := Collect(base, wanted, r);
    case Opaque =>
  }

  /** The layout a consumer expects: all member names of the type, sorted. */
  method MemberLayout(t: Type) returns (r: Option<seq<string>>)
    ensures r.None? <==> !Found(t, Fields) && !Found(t, Methods)
    ensures r.Some? ==> Sorted(r.value) && forall n :: n in r.value <==> HasName(t, Fields, n) || HasName(t, Methods, n)
  {
    var fields, methods, names;
    fields, names := Collect(t, Fields, []);
    methods, names := Collect(t, Methods, names);
    return if !fields && !methods then None else Some(names);
  }

  /** A type with methods to speak of has fields to speak of. */
  lemma {:induction false} FieldsFound(t: Type)
    requires Found(t, Methods)
    ensures Found(t, Fields)
    decreases t
  {
    match t
    case Union(members) =>
      var i :| 0 <= i < |members| && Found(members[i], Methods);
      FieldsFound(members[i]);
    case Variable(constraint, fallback) =>
      if constraint.Some? && Found(constraint.value, Methods) { FieldsFound(constraint.value); } else { FieldsFound(fallback.value); }
    case Wrapped(base) => FieldsFound(base);
    case _ =>
  }

  /**
   * A type variable whose constraint has fields and no methods takes its methods from
   * the default: one that is not among those fields leaks, and nothing else does.
   */
  predicate LeaksName(t: Type, name: string)
    decreases t
  {
    match t
    case Union(members) =>
      && (exists i :: 0 <= i < |members| && LeaksName(members[i], name))
      && forall i :: 0 <= i < |members| ==> !HasName(members[i], Fields, name)
    case Variable(constraint, fallback) =>
      if constraint.Some? && Found(constraint.value, Methods) then LeaksName(constraint.value, name)
      else if fallback.None? then false
      else if constraint.Some? && Found(constraint.value, Fields) then
        HasName(fallback.value, Methods, name) && !HasName(constraint.value, Fields, name)
      else LeaksName(fallback.value, name)
    case Wrapped(base) => LeaksName(base, name)
    case _ => false
  }

  /** Exactly the leaking names are methods without being fields. */
  lemma {:induction false} LeaksExactly(t: Type, name: string)
    ensures LeaksName(t, name) <==> HasName(t, Methods, name) && !HasName(t, Fields, name)
    decreases t
  {
    match t
    case Union(members) =>
      forall i | 0 <= i < |members|
        ensures LeaksName(members[i], name) <==> HasName(members[i], Methods, name) && !HasName(members[i], Fields, name)
      {
        LeaksExactly(members[i], name);
      }
    case Variable(constraint, fallback) =>
      if constraint.Some? {
        LeaksExactly(constraint.value, name);
        if Found(constraint.value, Methods) { FieldsFound(constraint.value); }
      }
      if fallback.Some? { LeaksExactly(fallback.value, name); }
    case Wrapped(base) => LeaksExactly(base, name);
    case _ =>
  }

  /** So the member layout is the field layout exactly when no name leaks. */
  lemma {:induction false} MethodsAreFields(t: Type)
    ensures (forall n: string :: HasName(t, Methods, n) ==> HasName(t, Fields, n)) <==> forall n: string :: !LeaksName(t, n)
  {
    if n: string :| LeaksName(t, n) {
      LeaksExactly(t, n);
    } else {
      forall n: string | HasName(t, Methods, n) ensures HasName(t, Fields, n) {
        LeaksExactly(t, n);
      }
    }
  }

  /** So a default's methods can join the constraint's fields. */
  lemma {:induction false} FallbackMethodsLeak(a: string, m: string)
    requires a != m
    ensures HasName(Variable(Some(Object([a])), Some(Nominal([], [m]))), Methods, m)
    ensures !HasName(Variable(Some(Object([a])), Some(Nominal([], [m]))), Fields, m)
  {
    var constraint, fallback := Object([a]), Nominal([], [m]);
    assert !Found(constraint, Methods) && Found(constraint, Fields);
    assert HasName(fallback, Methods, m) && !HasName(constraint, Fields, m);
  }

  // Namespace objects and slot maps.

  datatype Export = Export(name: string, value: int)

  /** A field of an object holds null until it is set. */
  datatype Field = Unset | Set(value: int)

  function Named(exports: seq<Export>): seq<Export>
  {
    if exports == [] then []
    else (if exports[0].name == "*" then [] else [exports[0]]) + Named(exports[1..])
  }

  /** Every export but the wildcard is kept, in order. */
  lemma {:induction false} NamedExactly(exports: seq<Export>, e: Export)
    ensures e in Named(exports) <==> e in exports && e.name != "*"
    ensures (forall i :: 0 <= i < |exports| ==> exports[i].name != "*") ==> Named(exports) == exports
  {
    if exports != [] {
      assert exports == [exports[0]] + exports[1..];
      NamedExactly(exports[1..], e);
    }
  }

  function Names(exports: seq<Export>): (r: seq<string>)
    ensures |r| == |exports|
    ensures forall i :: 0 <= i < |r| ==> r[i] == exports[i].name
  {
    seq(|exports|, i requires 0 <= i < |exports| => exports[i].name)
  }

  /** The first and the last place of a name. */
  predicate FirstAt(names: seq<string>, name: string, i: int)
  {
    0 <= i < |names| && names[i] == name && forall k :: 0 <= k < i ==> names[k] != name
  }

  predicate LastAt(names: seq<string>, name: string, i: int)
  {
    0 <= i < |names| && names[i] == name && forall k :: i < k < |names| ==> names[k] != name
  }

  method Position(names: seq<string>, name: string) returns (i: nat)
    requires name in names
    ensures FirstAt(names, name, i)
  {
    i := 0;
    while names[i] != name
      invariant i < |names| && forall k :: 0 <= k < i ==> names[k] != name
      invariant exists k :: i <= k < |names| && names[k] == name
      decreases |names| - i
    {
      i := i + 1;
    }
  }

  /** Field i of the object: what the last export of the name that starts at i left there. */
  predicate FieldHolds(exports: seq<Export>, names: seq<string>, n: nat, i: nat, field: Field)
    requires n <= |exports| && i < |names|
  {
    match field
    case Unset => forall k :: 0 <= k < n ==> !FirstAt(names, exports[k].name, i)
    case Set(v) =>
      exists k :: 0 <= k < n && FirstAt(names, exports[k].name, i) && exports[k].value == v
        && forall l :: k < l < n ==> exports[l].name != exports[k].name
  }

  /** Builds the namespace object of a module's exports, the wildcard left out. */
  method MaterializeNamespace(exports: seq<Export>) returns (names: seq<string>, fields: seq<Field>)
    ensures names == Names(Named(exports)) && |fields| == |names|
    ensures forall i :: 0 <= i < |fields| ==> FieldHolds(Named(exports), names, |Named(exports)|, i, fields[i])
  {
    var named := Named(exports);
    names := Names(named);
    fields := seq(|names|, _ => Unset);
    var n := 0;
    while n < |named|
      invariant n <= |named| && |fields| == |names|
      invariant forall i :: 0 <= i < |fields| ==> FieldHolds(named, names, n, i, fields[i])
    {
      assert names[n] == named[n].name;
      var slot := Position(names, named[n].name);
      ghost var before := fields;
      fields := fields[slot := Set(named[n].value)];
      forall i | 0 <= i < |fields| ensures FieldHolds(named, names, n + 1, i, fields[i]) {
        FieldStep(named, names, n, slot, i, before[i], fields[i]);
      }
      n := n + 1;
    }
  }

  lemma {:induction false} FieldStep(exports: seq<Export>, names: seq<string>, n: nat, slot: nat, i: nat, before: Field, after: Field)
    requires n < |exports| && i < |names| && FirstAt(names, exports[n].name, slot)
    requires FieldHolds(exports, names, n, i, before)
    requires after == if i == slot then Set(exports[n].value) else before
    ensures FieldHolds(exports, names, n + 1, i, after)
  {
    if i == slot {
      assert FirstAt(names, exports[n].name, i);
    } else {
      assert !FirstAt(names, exports[n].name, i);
      if before.Set? {
        var k :| 0 <= k < n && FirstAt(names, exports[k].name, i) && exports[k].value == before.value
          && forall l :: k < l < n ==> exports[l].name != exports[k].name;
        assert exports[n].name != exports[k].name;
        assert FirstAt(names, exports[k].name, i) && exports[k].value == after.value;
      }
    }
  }

  datatype Binding = Missing | FieldAt(index: nat)

  predicate Binds(actual: seq<string>, name: string, b: Binding)
  {
    match b
    case Missing => name !in actual
    case FieldAt(i) => LastAt(actual, name, i)
  }

  /** Maps each expected name to the place a table filled in order keeps for it: its last. */
  method SlotMapFromLayouts(expected: seq<string>, actual: seq<string>) returns (r: seq<Binding>)
    ensures |r| == |expected| && forall j :: 0 <= j < |r| ==> Binds(actual, expected[j], r[j])
  {
    var index: map<string, nat> := map[];
    var i := 0;
    while i < |actual|
      invariant i <= |actual|
      invariant forall n :: n in index <==> n in actual[..i]
      invariant forall n :: n in index ==> LastAt(actual[..i], n, index[n])
    {
      assert actual[..i + 1] == actual[..i] + [actual[i]];
      index := index[actual[i] := i];
      i := i + 1;
    }
    assert actual[..i] == actual;
    r := [];
    var j := 0;
    while j < |expected|
      invariant j <= |expected| && |r| == j
      invariant forall k :: 0 <= k < j ==> Binds(actual, expected[k], r[k])
    {
      r := r + [if expected[j] in index then FieldAt(index[expected[j]]) else Missing];
      j := j + 1;
    }
  }

  datatype Reading = NoMember | Member(field: Field)

  function Read(fields: seq<Field>, b: Binding): Reading
    requires b.FieldAt? ==> b.index < |fields|
  {
    if b.Missing? then NoMember else Member(fields[b.index])
  }

  /** A name exported at exactly one place. */
  ghost predicate Once(names: seq<string>, name: string)
  {
    exists i :: FirstAt(names, name, i) && LastAt(names, name, i)
  }

  /**
   * Reading an expected name through its binding: no member exactly when the module
   * does not export it, its value when it is exported once, and null otherwise.
   */
  lemma {:induction false} ReadThroughSlot(exports: seq<Export>, names: seq<string>, fields: seq<Field>, name: string, b: Binding)
    requires names == Names(exports) && |fields| == |names|
    requires forall i :: 0 <= i < |fields| ==> FieldHolds(exports, names, |exports|, i, fields[i])
    requires Binds(names, name, b)
    ensures Read(fields, b).NoMember? <==> name !in names
    ensures Once(names, name) ==>
              exists i :: 0 <= i < |exports| && exports[i].name == name && Read(fields, b) == Member(Set(exports[i].value))
    ensures name in names && !Once(names, name) ==> Read(fields, b) == Member(Unset)
  {
    if b.FieldAt? {
      var l := b.index;
      assert FieldHolds(exports, names, |exports|, l, fields[l]);
      OnceMeets(names, name, l);
      if FirstAt(names, name, l) {
        SetWhereFirst(exports, names, name, l, fields[l]);
      } else {
        UnsetElsewhere(exports, names, name, l, fields[l]);
      }
    } else {
      OnceIsIn(names, name);
    }
  }

  /** A name that occurs once has its first and its last place together. */
  lemma {:induction false} OnceMeets(names: seq<string>, name: string, l: nat)
    requires LastAt(names, name, l)
    ensures Once(names, name) <==> FirstAt(names, name, l)
  {
  }

  lemma {:induction false} OnceIsIn(names: seq<string>, name: string)
    ensures Once(names, name) ==> name in names
  {
  }

  lemma {:induction false} SetWhereFirst(exports: seq<Export>, names: seq<string>, name: string, l: nat, field: Field)
    requires names == Names(exports) && l < |names| && FirstAt(names, name, l)
    requires FieldHolds(exports, names, |exports|, l, field)
    ensures exists k :: 0 <= k < |exports| && exports[k].name == name && field == Set(exports[k].value)
  {
    assert FirstAt(names, exports[l].name, l);
  }

  lemma {:induction false} UnsetElsewhere(exports: seq<Export>, names: seq<string>, name: string, l: nat, field: Field)
    requires names == Names(exports) && l < |names| && names[l] == name && !FirstAt(names, name, l)
    requires FieldHolds(exports, names, |exports|, l, field)
    ensures field == Unset
  {
  }

  predicate Distinct(names: seq<string>)
  {
    forall i, j :: 0 <= i < j < |names| ==> names[i] != names[j]
  }

  /** With distinct export names every exported name is read as its export's value. */
  lemma {:induction false} DistinctOnce(names: seq<string>, name: string)
    requires Distinct(names) && name in names
    ensures Once(names, name)
  {
    var i :| 0 <= i < |names| && names[i] == name;
    assert FirstAt(names, name, i) && LastAt(names, name, i);
  }

  /** Distinct names are needed for exactly that. */
  lemma {:induction false} OnceDistinct(names: seq<string>)
    requires forall name :: name in names ==> Once(names, name)
    ensures Distinct(names)
  {
    forall i, j | 0 <= i < j < |names| ensures names[i] != names[j] {
      TwiceIsNotOnce(names, i, j);
    }
  }

  lemma {:induction false} TwiceIsNotOnce(names: seq<string>, i: nat, j: nat)
    requires i < j < |names|
    ensures names[i] == names[j] ==> !Once(names, names[i]) && names[i] in names
  {
  }

  /** A consumer's view of a namespace import, slot by slot. */
  method NamespaceView(exports: seq<Export>, expected: seq<string>) returns (view: seq<Reading>)
    ensures |view| == |expected|
    ensures forall j :: 0 <= j < |view| ==> (view[j].NoMember? <==> expected[j] !in Names(Named(exports)))
    ensures forall j :: 0 <= j < |view| && Once(Names(Named(exports)), expected[j]) ==>
              exists i :: 0 <= i < |Named(exports)| && Named(exports)[i].name == expected[j]
                && view[j] == Member(Set(Named(exports)[i].value))
    ensures forall j :: 0 <= j < |view| && expected[j] in Names(Named(exports)) && !Once(Names(Named(exports)), expected[j]) ==>
              view[j] == Member(Unset)
  {
    var names, fields := MaterializeNamespace(exports);
    var bindings := SlotMapFromLayouts(expected, names);
    forall j | 0 <= j < |bindings| ensures bindings[j].FieldAt? ==> bindings[j].index < |fields| {
      assert Binds(names, expected[j], bindings[j]);
    }
    view := seq(|bindings|, j requires 0 <= j < |bindings| => Read(fields, bindings[j]));
    forall j | 0 <= j < |view| {
      ReadThroughSlot(Named(exports), names, fields, expected[j], bindings[j]);
    }
  }
}
