/** Field lookup in a parsed block (`ol_checkField` and its typed variants):
    the value of the one field whose key is a given identifier, with the
    errors the C code reports for a missing, duplicated or ill-typed field. */
module OlCheck {
  import opened Results
  import opened Numeric
  import opened OlValues

  /** The errors the C code reports (before calling `exit`). */
  datatype CheckError =
    | Missing(name: seq<int>)
    | Duplicate(name: seq<int>)
    | InvalidValue(name: seq<int>, value: Value)
    | InvalidAssignment(name: seq<int>, key: Value)
    | InvalidElement(name: seq<int>, value: Value)

  /** Whether field `f` is `name = ...` with `name` an identifier. */
  predicate Keyed(f: Field, name: seq<int>) {
    f.key.Some? && f.key.value.Ident? && f.key.value.ident == name
  }

  /** The positions of the fields keyed `name`, in order. */
  function KeyedAt(fs: seq<Field>, name: seq<int>): seq<nat>
    decreases |fs|
  {
    if fs == [] then []
    else KeyedAt(fs[..|fs| - 1], name) + (if Keyed(fs[|fs| - 1], name) then [|fs| - 1] else [])
  }

  /** `KeyedAt` lists every keyed position, only those, in increasing
      order. */
  lemma {:induction false} KeyedAtSpec(fs: seq<Field>, name: seq<int>)
    ensures forall k :: 0 <= k < |KeyedAt(fs, name)| ==>
      KeyedAt(fs, name)[k] < |fs| && Keyed(fs[KeyedAt(fs, name)[k]], name)
    ensures forall i :: 0 <= i < |fs| && Keyed(fs[i], name) ==> i in KeyedAt(fs, name)
    ensures forall k, l :: 0 <= k < l < |KeyedAt(fs, name)| ==> KeyedAt(fs, name)[k] < KeyedAt(fs, name)[l]
    decreases |fs|
  {
    if fs != [] {
      var init := fs[..|fs| - 1];
      KeyedAtSpec(init, name);
      var r0 := KeyedAt(init, name);
      assert forall k :: 0 <= k < |r0| ==> fs[r0[k]] == init[r0[k]];
    }
  }

  /** One more field either adds its own position or nothing. */
  lemma KeyedStep(fs: seq<Field>, name: seq<int>, i: nat)
    requires i < |fs|
    ensures KeyedAt(fs[..i + 1], name) == KeyedAt(fs[..i], name) + (if Keyed(fs[i], name) then [i] else [])
  {
    assert fs[..i + 1][..i] == fs[..i];
  }

  /** The positions found in a prefix are the first ones found in the
      whole list. */
  lemma {:induction false} KeyedPrefix(fs: seq<Field>, name: seq<int>, i: nat)
    requires i <= |fs|
    ensures var p := KeyedAt(fs[..i], name);
      |p| <= |KeyedAt(fs, name)| && KeyedAt(fs, name)[..|p|] == p
    decreases |fs| - i
  {
    if i == |fs| {
      assert fs[..i] == fs;
    } else {
      var init := fs[..|fs| - 1];
      assert init[..i] == fs[..i];
      KeyedPrefix(init, name, i);
    }
  }

  /** What the lookup reports, from the keyed positions: the first keyed
      field decides the type error, a second one is a duplicate. */
  function Lookup(fs: seq<Field>, name: seq<int>, types: set<Kind>): (r: Result<Value, CheckError>)
    ensures r.Ok? ==> KindOf(r.value) in types
    ensures r.Ok? ==> exists i :: 0 <= i < |fs| && Keyed(fs[i], name) && fs[i].value == r.value
    ensures r.Err? ==> r.error.name == name && !r.error.InvalidAssignment? && !r.error.InvalidElement?
  {
    KeyedAtSpec(fs, name);
    var at := KeyedAt(fs, name);
    if at == [] then Err(Missing(name))
    else if KindOf(fs[at[0]].value) !in types then Err(InvalidValue(name, fs[at[0]].value))
    else if |at| > 1 then Err(Duplicate(name))
    else Ok(fs[at[0]].value)
  }

  /** A field is missing exactly when no field is keyed by its name. */
  lemma LookupMissing(fs: seq<Field>, name: seq<int>, types: set<Kind>)
    ensures Lookup(fs, name, types) == Err(Missing(name))
      <==> forall i :: 0 <= i < |fs| ==> !Keyed(fs[i], name)
  {
    KeyedAtSpec(fs, name);
    var at := KeyedAt(fs, name);
    if at != [] {
      assert Keyed(fs[at[0]], name);
    }
  }

  /** The lookup succeeds exactly when one field is keyed by the name and
      its value has a permitted kind; that value is the result. */
  lemma LookupFound(fs: seq<Field>, name: seq<int>, types: set<Kind>, i: nat)
    requires i < |fs| && Keyed(fs[i], name)
    ensures Lookup(fs, name, types) == Ok(fs[i].value)
      <==> (KindOf(fs[i].value) in types
            && forall j :: 0 <= j < |fs| && Keyed(fs[j], name) ==> j == i)
  {
    KeyedAtSpec(fs, name);
    var at := KeyedAt(fs, name);
    assert i in at;
    if |at| > 1 {
      assert at[0] != at[1];
    }
  }

  /** `ol_checkField`: scan the fields in order; the first keyed field is
      the result, a second keyed field is an error. */
  method CheckField(fields: seq<Field>, name: seq<int>, types: set<Kind>) returns (r: Result<Value, CheckError>)
    ensures r == Lookup(fields, name, types)
  {
    var result: Option<Value> := None;
    ghost var pos := 0;
    var i := 0;
    while i < |fields|
      invariant 0 <= i <= |fields|
      invariant result.None? ==> KeyedAt(fields[..i], name) == []
      invariant result.Some? ==> && pos < i && KeyedAt(fields[..i], name) == [pos]
                                 && result.value == fields[pos].value
                                 && KindOf(result.value) in types
    {
      var f := fields[i];
      KeyedStep(fields, name, i);
      if Keyed(f, name) {
        if result.Some? {
          KeyedPrefix(fields, name, i + 1);
          return Err(Duplicate(name));
        }
        result := Some(f.value);
        pos := i;
        if KindOf(f.value) !in types {
          KeyedPrefix(fields, name, i + 1);
          return Err(InvalidValue(name, f.value));
        }
      }
      i := i + 1;
    }
    assert fields[..i] == fields;
    if result.None? {
      return Err(Missing(name));
    }
    return Ok(result.value);
  }

  /** `ol_checkFieldInt`: a decimal or hexadecimal field, converted from
      `uint64_t` to `int` by keeping the low 32 bits. */
  method CheckFieldInt(fields: seq<Field>, name: seq<int>) returns (r: Result<int, CheckError>)
    ensures var l := Lookup(fields, name, {DecKind, HexKind});
      && (l.Err? ==> r == Err(l.error))
      && (l.Ok? ==> r.Ok? && r.value == S32(if l.value.Dec? then l.value.dec else l.value.hex))
    ensures r.Ok? ==> InS32(r.value)
  {
    var v :- CheckField(fields, name, {DecKind, HexKind});
    if v.Dec? {
      return Ok(S32(v.dec));
    } else if v.Hex? {
      return Ok(S32(v.hex));
    }
    return Ok(0);
  }

  /** A number that fits in an `int`, stored by the parser as its
      `uint64_t` pattern, comes back unchanged from `ol_checkFieldInt`. */
  lemma IntFieldValue(n: int)
    requires InS32(n)
    ensures S32(U64(n)) == n
  {
    var k := (U64(n) - n) / TWO64;
    assert U64(n) == n + k * TWO64;
    var j := k * (TWO64 / TWO32);
    assert U64(n) == n + j * TWO32;
  }

  /** Whether an array element is acceptable: no key, and a permitted kind. */
  predicate GoodElement(f: Field, types: set<Kind>) {
    f.key.None? && KindOf(f.value) in types
  }

  /** `ol_checkFieldArray`: a block-valued field whose fields are all bare
      values of the permitted kinds; the first offending element is
      reported. */
  method CheckFieldArray(fields: seq<Field>, name: seq<int>, types: set<Kind>) returns (r: Result<seq<Field>, CheckError>)
    ensures var l := Lookup(fields, name, {BlockKind});
      && (l.Err? ==> r == Err(l.error))
      && (l.Ok? ==> var a := l.value.fields;
          && (r.Ok? <==> forall i :: 0 <= i < |a| ==> GoodElement(a[i], types))
          && (r.Ok? ==> r.value == a)
          && (r.Err? ==> exists i :: (0 <= i < |a| && !GoodElement(a[i], types)
                && (forall j :: 0 <= j < i ==> GoodElement(a[j], types))
                && r.error == (if a[i].key.Some? then InvalidAssignment(name, a[i].key.value)
                               else InvalidElement(name, a[i].value)))))
  {
    var b :- CheckField(fields, name, {BlockKind});
    var a := b.fields;
    var i := 0;
    while i < |a|
      invariant 0 <= i <= |a|
      invariant forall j :: 0 <= j < i ==> GoodElement(a[j], types)
    {
      if a[i].key.Some? {
        return Err(InvalidAssignment(name, a[i].key.value));
      }
      if KindOf(a[i].value) !in types {
        return Err(InvalidElement(name, a[i].value));
      }
      i := i + 1;
    }
    return Ok(a);
  }
}
