/**
  Operations across the wire (src/operation_dispatcher.cpp, src/remote_operation.cpp): the
  schema by which the server describes an operation, the operation that the client rebuilds
  from it, and the way results come back. A remote call is proved to do what the local one does.
 */
module RemoteOperation {
  import opened Wrappers
  import opened Ordering

  /** RTT's view of an operation; `texts` are the argument types as written in C++. */
  datatype Operation = Operation(returnType: Bytes, argumentTypes: seq<Bytes>, texts: seq<Bytes>, collectTypes: seq<Bytes>)

  /** The types that a registry has a codec for, and whether these have values. */
  type TypeRegistry = map<Bytes, bool>

  datatype Description = Description(inputs: seq<Bytes>, outputs: seq<Bytes>, sources: seq<int>)

  /** What the server describes: every output has a source. */
  type Schema = d: Description | |d.outputs| == |d.sources| witness Description([], [], [])

  const VOID: Bytes := "Void"

  // --------------------------------------------------------- mutable references

  predicate IsSpace(c: Byte)
  {
    c == ' ' || 9 <= c as int <= 13
  }

  function TrimRight(s: Bytes): Bytes
  {
    if s != [] && IsSpace(s[|s| - 1]) then TrimRight(s[..|s| - 1]) else s
  }

  function TrimLeft(s: Bytes): Bytes
  {
    if s != [] && IsSpace(s[0]) then TrimLeft(s[1..]) else s
  }

  predicate EndsWithReference(s: Bytes)
  {
    var t := TrimRight(s);
    t != [] && t[|t| - 1] == '&'
  }

  const CONST_PREFIX: Bytes := "const "

  predicate StartsWithConst(s: Bytes)
  {
    CONST_PREFIX <= TrimLeft(s)
  }

  predicate IsMutable(text: Bytes)
  {
    EndsWithReference(text) && !StartsWithConst(TrimRight(text))
  }

  method IsMutableReference(text: Bytes) returns (mutable: bool)
    ensures mutable <==> IsMutable(text)
  {
    var type_ := text;
    while type_ != [] && IsSpace(type_[|type_| - 1])
      invariant TrimRight(type_) == TrimRight(text)
      decreases |type_|
    {
      type_ := type_[..|type_| - 1];
    }
    if type_ == [] || type_[|type_| - 1] != '&' {
      return false;
    }
    ghost var trimmed := type_;
    while type_ != [] && IsSpace(type_[0])
      invariant TrimLeft(type_) == TrimLeft(trimmed)
      decreases |type_|
    {
      type_ := type_[1..];
    }
    return !(CONST_PREFIX <= type_);
  }

  predicate AllSpace(s: Bytes)
  {
    forall i :: 0 <= i < |s| ==> s[i] as int in {9, 10, 11, 12, 13, 32}
  }

  lemma {:induction false} TrimmedRight(s: Bytes, right: Bytes)
    requires AllSpace(right) && (s == [] || s[|s| - 1] as int !in {9, 10, 11, 12, 13, 32})
    ensures TrimRight(s + right) == s
  {
    if right != [] {
      var n := |right| - 1;
      TrimmedRight(s, right[..n]);
      assert (s + right)[..|s| + n] == s + right[..n];
    } else {
      assert s + right == s;
    }
  }

  lemma {:induction false} TrimmedLeft(left: Bytes, s: Bytes)
    requires AllSpace(left) && (s == [] || s[0] as int !in {9, 10, 11, 12, 13, 32})
    ensures TrimLeft(left + s) == s
  {
    if left != [] {
      TrimmedLeft(left[1..], s);
      assert (left + s)[1..] == left[1..] + s;
    } else {
      assert left + s == s;
    }
  }

  /** Without the space around it a mutable argument ends in "&" and does not begin with "const ". */
  lemma MutableText(left: Bytes, core: Bytes, right: Bytes)
    requires AllSpace(left) && AllSpace(right)
    requires core != [] ==> AllSpace([core[0]]) == AllSpace([core[|core| - 1]]) == false
    ensures IsMutable(left + core + right) <==> core != [] && core[|core| - 1] == '&' && !("const " <= core)
  {
    if core == [] {
      assert left + core + right == [] + (left + right);
      TrimmedRight([], left + right);
    } else {
      var s := left + core;
      assert [core[0]][0] == core[0] && s[|s| - 1] == core[|core| - 1];
      TrimmedRight(s, right);
      TrimmedLeft(left, core);
    }
  }

  /** How the rebuilt operation writes an argument type. */
  function ArgumentText(name: Bytes, mutable: bool): Bytes
  {
    if mutable then name + " &" else name
  }

  lemma ReferenceText(name: Bytes)
    ensures TrimRight(name + " &") == name + " &"
  {
    assert (name + " &")[|name| + 1] == '&';
  }

  /** A type name that reads as a reference: without the space around it, it ends so and is not const. */
  predicate LooksMutable(name: Bytes)
  {
    var t := TrimLeft(TrimRight(name));
    t != [] && t[|t| - 1] == '&' && !(CONST_PREFIX <= t)
  }

  /** A type name that is const once a reference sign follows it. */
  predicate LooksConst(name: Bytes)
  {
    var t := TrimLeft(name);
    t == "const" || CONST_PREFIX <= t
  }

  lemma {:induction false} TrimLeftKeepsEnd(s: Bytes)
    requires s != [] && !IsSpace(s[|s| - 1])
    ensures TrimLeft(s) != [] && TrimLeft(s)[|TrimLeft(s)| - 1] == s[|s| - 1]
  {
    if IsSpace(s[0]) { TrimLeftKeepsEnd(s[1..]); }
  }

  lemma {:induction false} TrimLeftBefore(name: Bytes, suffix: Bytes)
    ensures TrimLeft(name + suffix) == if TrimLeft(name) == [] then TrimLeft(suffix) else TrimLeft(name) + suffix
  {
    if name == [] {
      assert name + suffix == suffix;
    } else if IsSpace(name[0]) {
      assert (name + suffix)[1..] == name[1..] + suffix;
      TrimLeftBefore(name[1..], suffix);
    }
  }

  lemma ConstBefore(name: Bytes)
    ensures StartsWithConst(name + " &") <==> LooksConst(name)
  {
    TrimLeftBefore(name, " &");
    var t := TrimLeft(name);
    assert TrimLeft(" &") == TrimLeft(" &"[1..]) == "&";
    if t != [] {
      var u := t + " &";
      assert CONST_PREFIX <= u <==> |u| >= 6 && u[..6] == CONST_PREFIX;
      if |t| == 5 {
        assert u[..6] == t + " " && CONST_PREFIX == "const" + " ";
        assert t == u[..5];
      } else if |t| >= 6 {
        assert u[..6] == t[..6];
      } else if |u| >= 6 {
        assert |t| == 4 && u[5] == '&' && CONST_PREFIX[5] == ' ';
      }
    }
  }

  /**
    The text of an argument is read back as written exactly when its type name, if it is
    mutable, is not const with a reference sign after it and, if not, is no reference itself.
   */
  lemma ArgumentTextIsReadBack(name: Bytes, mutable: bool)
    ensures IsMutable(ArgumentText(name, mutable)) == mutable <==>
            if mutable then !LooksConst(name) else !LooksMutable(name)
  {
    if mutable {
      ReferenceText(name);
      ConstBefore(name);
      assert (name + " &")[|name| + 1] == '&';
    } else {
      var t := TrimRight(name);
      TrimRightEnds(name);
      if t != [] {
        TrimLeftKeepsEnd(t);
      }
    }
  }

  lemma {:induction false} TrimRightEnds(s: Bytes)
    ensures TrimRight(s) != [] ==> !IsSpace(TrimRight(s)[|TrimRight(s)| - 1])
  {
    if s != [] && IsSpace(s[|s| - 1]) { TrimRightEnds(s[..|s| - 1]); }
  }

  // ---------------------------------------------------------------- describing

  predicate HasValue(types: TypeRegistry, t: Bytes): (has: bool)
    ensures has <==> (t, true) in types.Items
  {
    t in types && types[t]
  }

  /** The mutable arguments, from index k on. */
  function MutableFrom(texts: seq<Bytes>, k: nat): (m: seq<int>)
    requires k <= |texts|
    ensures forall i :: 0 <= i < |m| ==> k <= m[i] < |texts|
    ensures forall i, j :: 0 <= i < j < |m| ==> m[i] < m[j]
    decreases |texts| - k
  {
    if k == |texts| then []
    else if IsMutable(texts[k]) then [k] + MutableFrom(texts, k + 1)
    else MutableFrom(texts, k + 1)
  }

  /** Where the outputs of an operation come from: the return value first, then the mutable arguments. */
  function Sources(op: Operation, types: TypeRegistry): seq<int>
  {
    (if HasValue(types, op.returnType) then [-1] else []) + MutableFrom(op.texts, 0)
  }

  ghost predicate Describable(op: Operation, types: TypeRegistry)
  {
    && (forall i :: 0 <= i < |op.argumentTypes| ==> HasValue(types, op.argumentTypes[i]))
    && op.returnType in types && (!types[op.returnType] ==> op.returnType == VOID)
    && (forall i :: 0 <= i < |op.collectTypes| ==> HasValue(types, op.collectTypes[i]))
    && |op.collectTypes| <= |Sources(op, types)|
  }

  /** What describing an operation comes to. */
  ghost function Described(op: Operation, types: TypeRegistry): Option<Schema>
  {
    if Describable(op, types)
    then Some(Description(op.argumentTypes, op.collectTypes, Sources(op, types)[..|op.collectTypes|]))
    else None
  }

  method MutableArguments(texts: seq<Bytes>) returns (mutable: seq<int>)
    ensures mutable == MutableFrom(texts, 0)
  {
    mutable := [];
    for i := 0 to |texts|
      invariant MutableFrom(texts, 0) == mutable + MutableFrom(texts, i)
    {
      var m := IsMutableReference(texts[i]);
      if m {
        Associative(mutable, [i as int], MutableFrom(texts, i + 1));
        mutable := mutable + [i];
      }
    }
  }

  /** The loop over the collected types: each needs a codec with values and a source. */
  method DescribeOutputs(types: TypeRegistry, collectTypes: seq<Bytes>, hasReturn: bool, mutable: seq<int>)
    returns (sources: Option<seq<int>>)
    ensures var all := (if hasReturn then [-1] else []) + mutable;
            && (sources.Some? <==>
                && (forall i :: 0 <= i < |collectTypes| ==> HasValue(types, collectTypes[i]))
                && |collectTypes| <= |all|)
            && (sources.Some? ==> sources.value == all[..|collectTypes|])
  {
    ghost var all := (if hasReturn then [-1] else []) + mutable;
    var next := 0;
    var found: seq<int> := [];
    for k := 0 to |collectTypes|
      invariant forall i :: 0 <= i < k ==> HasValue(types, collectTypes[i])
      invariant next == k - (if hasReturn && k > 0 then 1 else 0) && next <= |mutable|
      invariant k <= |all| && found == all[..k]
    {
      if !HasValue(types, collectTypes[k]) {
        return None;
      }
      if k == 0 && hasReturn {
        found := found + [-1];
      } else if next < |mutable| {
        assert all[k] == mutable[next];
        found := found + [mutable[next]];
        next := next + 1;
      } else {
        return None;
      }
    }
    return Some(found);
  }

  /** OperationDispatcher::describe. */
  method Describe(op: Operation, types: TypeRegistry) returns (d: Option<Schema>)
    ensures d == Described(op, types)
  {
    hide IsMutable;
    for i := 0 to |op.argumentTypes|
      invariant forall k :: 0 <= k < i ==> HasValue(types, op.argumentTypes[k])
    {
      if !HasValue(types, op.argumentTypes[i]) {
        return None;
      }
    }
    if op.returnType !in types || (!types[op.returnType] && op.returnType != VOID) {
      return None;
    }
    var mutable := MutableArguments(op.texts);
    var sources := DescribeOutputs(types, op.collectTypes, types[op.returnType], mutable);
    if sources.None? {
      return None;
    }
    return Some(Description(op.argumentTypes, op.collectTypes, sources.value));
  }

  // ------------------------------------------------------------------ rebuilding

  datatype BuildError = UnsupportedInput | UnsupportedOutput | SizesDiffer | SecondReturnValue | BadMutableOutput | BadSource

  /** What the client's constructor accepts. */
  ghost predicate Acceptable(d: Description, types: TypeRegistry)
  {
    && (forall i :: 0 <= i < |d.inputs| ==> d.inputs[i] in types)
    && (forall i :: 0 <= i < |d.outputs| ==> d.outputs[i] in types)
    && |d.outputs| == |d.sources|
    && (forall i :: 0 <= i < |d.sources| ==> SourceOk(d, i))
    && NoDuplicates(d.sources)
  }

  /** The operation that a proxy offers. */
  ghost function Rebuilt(d: Description): Operation
    requires NoDuplicates(d.sources) && |d.outputs| == |d.sources|
  {
    Operation(ReturnType(d), d.inputs, RebuiltTexts(d), d.outputs)
  }

  ghost function ReturnType(d: Description): Bytes
    requires |d.outputs| == |d.sources|
  {
    if -1 in d.sources then d.outputs[IndexOf(d.sources, -1)] else VOID
  }

  function IndexOf(s: seq<int>, x: int): (i: nat)
    requires x in s
    ensures i < |s| && s[i] == x
  {
    if s[0] == x then 0 else 1 + IndexOf(s[1..], x)
  }

  function RebuiltTexts(d: Description): (r: seq<Bytes>)
    ensures |r| == |d.inputs|
    ensures forall i :: 0 <= i < |r| ==> r[i] == ArgumentText(d.inputs[i], i in d.sources)
  {
    seq(|d.inputs|, i requires 0 <= i < |d.inputs| => ArgumentText(d.inputs[i], i in d.sources))
  }

  method BuildRemoteOperation(d: Description, types: TypeRegistry) returns (r: Result<Operation, BuildError>)
    ensures r.Ok? <==> Acceptable(d, types)
    ensures r.Ok? ==> r.value == Rebuilt(d)
  {
    hide IsMutable;
    for i := 0 to |d.inputs|
      invariant forall k :: 0 <= k < i ==> d.inputs[k] in types
    {
      if d.inputs[i] !in types {
        return Err(UnsupportedInput);
      }
    }
    for i := 0 to |d.outputs|
      invariant forall k :: 0 <= k < i ==> d.outputs[k] in types
    {
      if d.outputs[i] !in types {
        return Err(UnsupportedOutput);
      }
    }
    if |d.outputs| != |d.sources| {
      return Err(SizesDiffer);
    }
    var returnType: Option<Bytes> := None;
    var mutable: set<int> := {};
    for i := 0 to |d.sources|
      invariant forall k :: 0 <= k < i ==> SourceOk(d, k)
      invariant NoDuplicates(d.sources[..i])
      invariant returnType.Some? <==> -1 in d.sources[..i]
      invariant returnType.Some? ==> returnType.value == ReturnType(d)
      invariant mutable == Elements(d.sources[..i]) - {-1}
    {
      var source := d.sources[i];
      TakeMore(d.sources, i);
      NoDuplicatesGrow(d.sources[..i], source);
      PrefixDistinct(d.sources, i + 1);
      if source == -1 {
        if returnType.Some? {
          assert d.sources[i] in d.sources[..i];
          return Err(SecondReturnValue);
        }
        FirstIndex(d.sources, i);
        returnType := Some(d.outputs[i]);
      } else if 0 <= source < |d.inputs| {
        if d.outputs[i] != d.inputs[source] || source in mutable {
          assert source in mutable ==> d.sources[i] in d.sources[..i];
          assert d.outputs[i] != d.inputs[source] ==> !SourceOk(d, i);
          return Err(BadMutableOutput);
        }
        mutable := mutable + {source};
      } else {
        assert !SourceOk(d, i);
        return Err(BadSource);
      }
    }
    TakeAll(d.sources);
    var texts := seq(|d.inputs|, i requires 0 <= i < |d.inputs| => ArgumentText(d.inputs[i], i in mutable));
    assert texts == RebuiltTexts(d);
    return Ok(Operation(if returnType.Some? then returnType.value else VOID, d.inputs, texts, d.outputs));
  }

  predicate SourceOk(d: Description, i: nat)
    requires i < |d.sources| == |d.outputs|
  {
    d.sources[i] == -1 || (0 <= d.sources[i] < |d.inputs| && d.outputs[i] == d.inputs[d.sources[i]])
  }

  lemma PrefixDistinct(s: seq<int>, n: nat)
    requires n <= |s|
    ensures NoDuplicates(s) ==> NoDuplicates(s[..n])
  {
  }

  lemma FirstIndex(s: seq<int>, i: nat)
    requires i < |s| && s[i] !in s[..i]
    ensures IndexOf(s, s[i]) == i
  {
    if i > 0 {
      assert s[0] in s[..i];
      assert s[1..][..i - 1] == s[1..i];
      assert forall x :: x in s[1..i] ==> x in s[..i];
      FirstIndex(s[1..], i - 1);
    }
  }

  // --------------------------------------------------------------- round trip

  function TypesAt(types: seq<Bytes>, indices: seq<int>): (r: seq<Bytes>)
    requires forall i :: 0 <= i < |indices| ==> 0 <= indices[i] < |types|
    ensures |r| == |indices|
    ensures forall i :: 0 <= i < |r| ==> r[i] == types[indices[i]]
  {
    seq(|indices|, i requires 0 <= i < |indices| => types[indices[i]])
  }

  lemma {:induction false} MutableFromIsExact(texts: seq<Bytes>, k: nat, t: nat)
    requires k <= t < |texts|
    ensures t in MutableFrom(texts, k) <==> IsMutable(texts[t])
    decreases |texts| - k
  {
    hide IsMutable;
    if k < t {
      MutableFromIsExact(texts, k + 1, t);
      assert [k as int][0] == k;
    }
  }

  /** RTT's argument list has an entry for each argument, and what it collects fits the mutable ones. */
  ghost predicate Regular(op: Operation, types: TypeRegistry)
  {
    && |op.texts| == |op.argumentTypes|
    && op.collectTypes == (if HasValue(types, op.returnType) then [op.returnType] else [])
                          + TypesAt(op.argumentTypes, MutableFrom(op.texts, 0))
  }

  function DescriptionOf(op: Operation, types: TypeRegistry): Description
  {
    Description(op.argumentTypes, op.collectTypes, Sources(op, types))
  }

  /** Sources in ascending order, after the return value, make a description without clashes. */
  lemma AscendingSources(inputs: seq<Bytes>, ret: Bytes, mutable: seq<int>, returns_: bool)
    requires forall i :: 0 <= i < |mutable| ==> 0 <= mutable[i] < |inputs|
    requires forall i, j :: 0 <= i < j < |mutable| ==> mutable[i] < mutable[j]
    ensures var d := Description(inputs, (if returns_ then [ret] else []) + TypesAt(inputs, mutable),
                                 (if returns_ then [-1] else []) + mutable);
            && |d.outputs| == |d.sources| && NoDuplicates(d.sources)
            && (forall i :: 0 <= i < |d.sources| ==> SourceOk(d, i))
            && (-1 in d.sources <==> returns_)
            && (forall t :: 0 <= t < |inputs| ==> (t in d.sources <==> t in mutable))
  {
    var offset := if returns_ then 1 else 0;
    var sources := (if returns_ then [-1] else []) + mutable;
    assert returns_ ==> sources[0] == -1;
    assert forall i :: offset <= i < |sources| ==> sources[i] == mutable[i - offset];
  }

  lemma RegularSources(op: Operation, types: TypeRegistry)
    requires Regular(op, types)
    ensures |Sources(op, types)| == |op.collectTypes|
    ensures NoDuplicates(Sources(op, types))
    ensures forall i :: 0 <= i < |Sources(op, types)| ==> SourceOk(DescriptionOf(op, types), i)
    ensures forall t :: 0 <= t < |op.texts| ==> (t in Sources(op, types) <==> IsMutable(op.texts[t]))
    ensures -1 in Sources(op, types) <==> HasValue(types, op.returnType)
  {
    hide IsMutable, HasValue, SourceOk, NoDuplicates;
    forall t | 0 <= t < |op.texts| ensures t in MutableFrom(op.texts, 0) <==> IsMutable(op.texts[t]) {
      MutableFromIsExact(op.texts, 0, t);
    }
    AscendingSources(op.argumentTypes, op.returnType, MutableFrom(op.texts, 0), HasValue(types, op.returnType));
  }

  /** Every type with a codec has one on the client's side, and every value type has values there. */
  ghost predicate Serves(client: TypeRegistry, types: TypeRegistry)
  {
    forall t :: t in types ==> t in client && (types[t] ==> client[t])
  }

  /** After the `first` outputs, the k-th type that is collected is that of the k-th mutable argument. */
  ghost predicate InOrder(inputs: seq<Bytes>, outputs: seq<Bytes>, mutable: seq<int>, first: nat)
    requires forall k :: 0 <= k < |mutable| ==> 0 <= mutable[k]
  {
    forall k :: 0 <= k < |mutable| && k + first < |outputs| ==>
      mutable[k] < |inputs| && outputs[k + first] == inputs[mutable[k]]
  }

  /** An operation collects its return value, if it has one, and then its mutable arguments. */
  ghost predicate CollectsInOrder(op: Operation, types: TypeRegistry)
  {
    InOrder(op.argumentTypes, op.collectTypes, MutableFrom(op.texts, 0),
            if HasValue(types, op.returnType) then 1 else 0)
  }

  lemma SourcesInOrder(d: Description, mutable: seq<int>, first: nat)
    requires forall k :: 0 <= k < |mutable| ==> 0 <= mutable[k]
    requires |d.sources| == |d.outputs| <= first + |mutable|
    requires forall i :: 0 <= i < |d.sources| ==> d.sources[i] == if i < first then -1 else mutable[i - first]
    ensures (forall i :: 0 <= i < |d.sources| ==> SourceOk(d, i)) <==> InOrder(d.inputs, d.outputs, mutable, first)
  {
    if InOrder(d.inputs, d.outputs, mutable, first) {
      forall i | 0 <= i < |d.sources| ensures SourceOk(d, i) {
        if i >= first {
          var k := i - first;
          assert mutable[k] < |d.inputs| && d.outputs[k + first] == d.inputs[mutable[k]];
        }
      }
    }
    if forall i :: 0 <= i < |d.sources| ==> SourceOk(d, i) {
      forall k | 0 <= k < |mutable| && k + first < |d.outputs|
        ensures mutable[k] < |d.inputs| && d.outputs[k + first] == d.inputs[mutable[k]]
      {
        assert SourceOk(d, k + first);
      }
    }
  }

  lemma DescribedSources(op: Operation, types: TypeRegistry)
    requires Described(op, types).Some?
    ensures var d, mutable := Described(op, types).value, MutableFrom(op.texts, 0);
            var first := if HasValue(types, op.returnType) then 1 else 0;
            && d.inputs == op.argumentTypes && d.outputs == op.collectTypes && |d.sources| == |d.outputs|
            && |d.sources| <= first + |mutable|
            && (forall i :: 0 <= i < |d.sources| ==> d.sources[i] == if i < first then -1 else mutable[i - first])
            && NoDuplicates(d.sources)
  {
    hide IsMutable, MutableFrom;
    var d, mutable := Described(op, types).value, MutableFrom(op.texts, 0);
    var first := if HasValue(types, op.returnType) then 1 else 0;
    forall i | 0 <= i < |d.sources| ensures d.sources[i] == if i < first then -1 else mutable[i - first] {
      assert d.sources[i] == Sources(op, types)[i];
    }
  }

  /** A client with these types accepts what the server describes iff it is collected in order. */
  lemma DescriptionIsAccepted(op: Operation, types: TypeRegistry, client: TypeRegistry)
    requires Described(op, types).Some? && Serves(client, types)
    ensures Acceptable(Described(op, types).value, client) <==> CollectsInOrder(op, types)
  {
    DescribedSources(op, types);
    DescribedTypes(op, types, client);
    hide IsMutable, MutableFrom, Described, NoDuplicates, SourceOk, InOrder, Serves, HasValue;
    SourcesInOrder(Described(op, types).value, MutableFrom(op.texts, 0),
                   if HasValue(types, op.returnType) then 1 else 0);
  }

  lemma DescribedTypes(op: Operation, types: TypeRegistry, client: TypeRegistry)
    requires Described(op, types).Some? && Serves(client, types)
    ensures var d := Described(op, types).value;
            && (forall i :: 0 <= i < |d.inputs| ==> d.inputs[i] in client)
            && (forall i :: 0 <= i < |d.outputs| ==> d.outputs[i] in client)
  {
    hide MutableFrom, Sources;
    assert forall i :: 0 <= i < |op.argumentTypes| ==> HasValue(types, op.argumentTypes[i]);
    assert forall i :: 0 <= i < |op.collectTypes| ==> HasValue(types, op.collectTypes[i]);
  }

  /** RTT's own operations do. */
  lemma RegularIsAccepted(op: Operation, types: TypeRegistry, client: TypeRegistry)
    requires Describable(op, types) && Regular(op, types) && Serves(client, types)
    ensures Described(op, types) == Some(DescriptionOf(op, types))
    ensures Acceptable(DescriptionOf(op, types), client)
  {
    RegularSources(op, types);
    assert Sources(op, types)[..|op.collectTypes|] == Sources(op, types);
    hide IsMutable, MutableFrom, Sources, Describable;
    assert CollectsInOrder(op, types);
    DescriptionIsAccepted(op, types, client);
  }

  lemma MutableOfTwo(texts: seq<Bytes>)
    requires |texts| == 2
    ensures MutableFrom(texts, 0)
            == (if IsMutable(texts[0]) then [0] else []) + (if IsMutable(texts[1]) then [1] else [])
  {
    hide IsMutable;
    assert MutableFrom(texts, 2) == [];
    assert MutableFrom(texts, 1) == if IsMutable(texts[1]) then [1] else [];
  }

  /** Describing an operation of two arguments that returns nothing and collects one output. */
  lemma DescribedOfTwo(op: Operation, types: TypeRegistry)
    requires op.returnType == VOID && VOID in types && !types[VOID]
    requires |op.argumentTypes| == 2 && HasValue(types, op.argumentTypes[0]) && HasValue(types, op.argumentTypes[1])
    requires |op.collectTypes| == 1 && HasValue(types, op.collectTypes[0])
    requires MutableFrom(op.texts, 0) != []
    ensures Described(op, types)
            == Some(Description(op.argumentTypes, op.collectTypes, [MutableFrom(op.texts, 0)[0]]))
  {
    hide MutableFrom, IsMutable;
    assert !HasValue(types, VOID);
    hide HasValue;
    var sources := Sources(op, types);
    assert sources == MutableFrom(op.texts, 0);
    assert sources[..1] == [sources[0]];
  }

  const REFUSED: Operation := Operation(VOID, ["A", "B"], ["A const&", "B &"], ["B"])
  const REFUSED_TYPES: TypeRegistry := map[VOID := false, "A" := true, "B" := true]
  const REFUSED_SCHEMA: Schema := Description(["A", "B"], ["B"], [0])

  /**
    A reference to a constant, written with `const` behind the type, counts as mutable and takes
    the place of the output that follows it: described by the server, and refused by every client.
   */
  lemma RefusedDescription(client: TypeRegistry)
    ensures Described(REFUSED, REFUSED_TYPES) == Some(REFUSED_SCHEMA)
    ensures !Acceptable(REFUSED_SCHEMA, client)
  {
    RefusedTexts();
    MutableOfTwo(REFUSED.texts);
    hide IsMutable, MutableFrom;
    DescribedOfTwo(REFUSED, REFUSED_TYPES);
    assert !SourceOk(REFUSED_SCHEMA, 0);
  }

  lemma RefusedTexts()
    ensures IsMutable(REFUSED.texts[0]) && IsMutable(REFUSED.texts[1])
  {
    assert TrimRight("A const&") == "A const&" && TrimLeft("A const&") == "A const&";
    ReferenceText("B");
    assert "B" + " &" == "B &" && TrimLeft("B &") == "B &";
  }

  ghost predicate AscendingList(s: seq<int>)
  {
    forall i, j :: 0 <= i < j < |s| ==> s[i] < s[j]
  }

  /** An ascending list adds to another but larger elements. */
  ghost predicate Extends(part: seq<int>, all: seq<int>)
  {
    && (forall t :: t in part ==> t in all)
    && forall t, m :: t in all && t !in part && m in part ==> m < t
  }

  lemma {:induction false} ExtensionBegins(part: seq<int>, all: seq<int>)
    requires AscendingList(part) && AscendingList(all) && Extends(part, all)
    ensures part <= all
  {
    if part != [] {
      var p := part[1..];
      assert part[0] in part && all != [] && all[0] in all;
      assert all[0] == part[0];
      var a := all[1..];
      ExtensionTail(part, all);
      ExtensionBegins(p, a);
      assert part == [part[0]] + p && all == [all[0]] + a;
    }
  }

  lemma ExtensionTail(part: seq<int>, all: seq<int>)
    requires AscendingList(part) && AscendingList(all) && Extends(part, all)
    requires part != [] && all != [] && part[0] == all[0]
    ensures Extends(part[1..], all[1..])
  {
    var p, a := part[1..], all[1..];
    forall t | t in p ensures t in a {
      assert t in part && t != all[0];
      var k :| 0 <= k < |all| && all[k] == t;
      assert a[k - 1] == t;
    }
    forall t, m | t in a && t !in p && m in p ensures m < t {
      assert t in all && m in part && t != part[0];
    }
  }

  lemma BeginningExtends(part: seq<int>, all: seq<int>)
    requires AscendingList(all) && part <= all
    ensures Extends(part, all)
  {
    forall t | t in part ensures t in all { assert all[..|part|] == part; }
    forall t, m | t in all && t !in part && m in part ensures m < t {
      var k :| 0 <= k < |all| && all[k] == t;
      var l :| 0 <= l < |part| && part[l] == m;
      assert all[l] == m && k >= |part|;
    }
  }

  /** An ascending list begins with another exactly when it adds to it but larger elements. */
  lemma BeginsWith(part: seq<int>, all: seq<int>)
    requires AscendingList(part) && AscendingList(all)
    ensures part <= all <==> Extends(part, all)
  {
    if part <= all { BeginningExtends(part, all); }
    if Extends(part, all) { ExtensionBegins(part, all); }
  }

  lemma SamePrefix(head: seq<int>, part: seq<int>, all: seq<int>, n: nat)
    requires n == |head| + |part|
    ensures n <= |head + all| && (head + all)[..n] == head + part <==> part <= all
  {
    if n <= |head + all| && (head + all)[..n] == head + part {
      assert (head + all)[..n][|head|..] == all[..|part|];
      assert (head + part)[|head|..] == part;
    }
    if part <= all {
      assert (head + all)[..n] == head + all[..|part|];
    }
  }

  /**
    No name is misread where it matters: a mutable argument's is not const, and one that is
    passed by value, before some mutable argument, is no reference.
   */
  ghost predicate NamesReadBack(d: Description)
  {
    forall i :: 0 <= i < |d.inputs| ==>
      if i in d.sources then !LooksConst(d.inputs[i])
      else !LooksMutable(d.inputs[i]) || forall j :: i < j < |d.inputs| ==> j !in d.sources
  }

  /** Describing the operation that a client rebuilt gives the description it was rebuilt from iff the names read back. */
  lemma RebuiltDescribesTheSame(op: Operation, types: TypeRegistry)
    requires Describable(op, types) && Regular(op, types) && VOID in types && !types[VOID]
    ensures var d := Described(op, types).value;
            && Acceptable(d, types)
            && (Described(Rebuilt(d), types) == Some(d) <==> NamesReadBack(d))
  {
    hide IsMutable, LooksMutable, LooksConst, Regular;
    var d := Described(op, types).value;
    RegularSources(op, types);
    RegularIsAccepted(op, types, types);
    RegularLengths(op, types);
    ReturnSurvives(op, types);
    assert d == DescriptionOf(op, types);
    var again := Rebuilt(d);
    var before, after := MutableFrom(op.texts, 0), MutableFrom(again.texts, 0);
    SamePrefix(if HasValue(types, op.returnType) then [-1] else [], before, after, |op.collectTypes|);
    BeginsWith(before, after);
    RebuiltReads(op, types);
    assert Described(again, types) == Some(d) <==> before <= after;
  }

  /** What is read of the rebuilt texts, in terms of the names. */
  lemma RebuiltReads(op: Operation, types: TypeRegistry)
    requires Regular(op, types) && |op.texts| == |op.argumentTypes|
    ensures var d := DescriptionOf(op, types);
            var before, after := MutableFrom(op.texts, 0), MutableFrom(RebuiltTexts(d), 0);
            NamesReadBack(d) <==> Extends(before, after)
  {
    hide IsMutable, LooksMutable, LooksConst, Regular, ArgumentText, MutableFrom, Sources;
    var d := DescriptionOf(op, types);
    RegularSources(op, types);
    forall t | 0 <= t < |op.texts|
      ensures t in MutableFrom(op.texts, 0) <==> t in d.sources
      ensures t in MutableFrom(RebuiltTexts(d), 0)
              <==> if t in d.sources then !LooksConst(d.inputs[t]) else LooksMutable(d.inputs[t])
    {
      MutableFromIsExact(op.texts, 0, t);
      MutableFromIsExact(RebuiltTexts(d), 0, t);
      ArgumentTextIsReadBack(d.inputs[t], t in d.sources);
    }
    NamesAreExtension(d, MutableFrom(op.texts, 0), MutableFrom(RebuiltTexts(d), 0));
  }

  lemma NamesAreExtension(d: Description, before: seq<int>, after: seq<int>)
    requires forall t :: t in before || t in after ==> 0 <= t < |d.inputs|
    requires forall t :: 0 <= t < |d.inputs| ==> (t in before <==> t in d.sources)
    requires forall t :: 0 <= t < |d.inputs| ==>
               (t in after <==> if t in d.sources then !LooksConst(d.inputs[t]) else LooksMutable(d.inputs[t]))
    ensures NamesReadBack(d) <==> Extends(before, after)
  {
    hide LooksMutable, LooksConst;
  }

  lemma MisreadTexts()
    ensures !IsMutable("Alias") && IsMutable("U &") && IsMutable("T&")
  {
    assert TrimRight("Alias") == "Alias" && "Alias"[4] == 's';
    ReferenceText("U");
    assert "U" + " &" == "U &";
    ConstBefore("U");
    assert TrimRight("T&") == "T&" && TrimLeft("T&") == "T&";
  }

  const MISREAD: Operation := Operation(VOID, ["T&", "U"], ["Alias", "U &"], ["U"])
  const MISREAD_TYPES: TypeRegistry := map[VOID := false, "T&" := true, "U" := true]

  lemma MisreadIsRegular()
    ensures MutableFrom(MISREAD.texts, 0) == [1] && Regular(MISREAD, MISREAD_TYPES)
  {
    MisreadTexts();
    MutableOfTwo(MISREAD.texts);
    hide IsMutable, MutableFrom;
    assert TypesAt(MISREAD.argumentTypes, [1]) == ["U"];
  }

  lemma MisreadAgain(again: Operation)
    requires again == Operation(VOID, ["T&", "U"], ["T&", "U &"], ["U"])
    ensures Described(again, MISREAD_TYPES) == Some(Description(["T&", "U"], ["U"], [0]))
  {
    MisreadTexts();
    MutableOfTwo(again.texts);
    hide IsMutable, MutableFrom;
    DescribedOfTwo(again, MISREAD_TYPES);
  }

  /**
    A type whose name is a reference, passed by value before a mutable argument, is taken for the
    output. No client accepts what describing the rebuilt operation then gives.
   */
  lemma MisreadDescription(client: TypeRegistry)
    ensures Described(MISREAD, MISREAD_TYPES) == Some(Description(["T&", "U"], ["U"], [1]))
    ensures Regular(MISREAD, MISREAD_TYPES)
    ensures var d := Described(MISREAD, MISREAD_TYPES).value;
            && Acceptable(d, MISREAD_TYPES)
            && Described(Rebuilt(d), MISREAD_TYPES) == Some(Description(["T&", "U"], ["U"], [0]))
            && !Acceptable(Description(["T&", "U"], ["U"], [0]), client)
  {
    MisreadIsRegular();
    hide IsMutable, MutableFrom, Regular, Described;
    DescribedOfTwo(MISREAD, MISREAD_TYPES);
    var d := Description(["T&", "U"], ["U"], [1]);
    assert Acceptable(d, MISREAD_TYPES);
    assert "U" + " &" == "U &" && RebuiltTexts(d) == ["T&", "U &"];
    MisreadAgain(Rebuilt(d));
    assert !SourceOk(Description(["T&", "U"], ["U"], [0]), 0);
  }

  lemma RegularLengths(op: Operation, types: TypeRegistry)
    requires Regular(op, types)
    ensures |op.texts| == |op.argumentTypes|
  {
  }

  lemma ReturnSurvives(op: Operation, types: TypeRegistry)
    requires Describable(op, types) && Regular(op, types) && VOID in types && !types[VOID]
    ensures var d := DescriptionOf(op, types);
            && NoDuplicates(d.sources) && |d.outputs| == |d.sources|
            && (HasValue(types, Rebuilt(d).returnType) <==> HasValue(types, op.returnType))
            && Rebuilt(d).returnType in types && (!types[Rebuilt(d).returnType] ==> Rebuilt(d).returnType == VOID)
  {
    hide IsMutable;
    RegularSources(op, types);
    var d := DescriptionOf(op, types);
    if HasValue(types, op.returnType) {
      assert d.sources[0] == -1 && IndexOf(d.sources, -1) == 0;
    }
  }

  // ------------------------------------------------------------------ calling

  type Value = int
  type Variant = int

  /** Type codecs, as far as a call is concerned. */
  datatype Codec = Codec(encode: (Bytes, Value) -> Variant, decode: (Bytes, Variant) -> Option<Value>)

  ghost predicate RoundTrips(codec: Codec)
  {
    forall t, v :: codec.decode(t, codec.encode(t, v)) == Some(v)
  }

  lemma RoundTrip(codec: Codec, t: Bytes, v: Value)
    requires RoundTrips(codec)
    ensures codec.decode(t, codec.encode(t, v)) == Some(v)
  {
  }

  /** encodeArguments: the server decodes exactly the values that the caller passed. */
  method EncodeArguments(codec: Codec, types: TypeRegistry, inputs: seq<Bytes>, arguments: seq<Value>)
    returns (r: Option<seq<Variant>>)
    requires |inputs| == |arguments| && RoundTrips(codec)
    ensures r.Some? <==> forall i :: 0 <= i < |inputs| ==> inputs[i] in types
    ensures r.Some? ==> |r.value| == |arguments|
    ensures r.Some? ==> forall i :: 0 <= i < |inputs| ==> codec.decode(inputs[i], r.value[i]) == Some(arguments[i])
  {
    var encoded: seq<Variant> := [];
    for i := 0 to |arguments|
      invariant |encoded| == i
      invariant forall k :: 0 <= k < i ==> inputs[k] in types
      invariant forall k :: 0 <= k < i ==> codec.decode(inputs[k], encoded[k]) == Some(arguments[k])
    {
      if inputs[i] !in types {
        return None;
      }
      RoundTrip(codec, inputs[i], arguments[i]);
      encoded := encoded + [codec.encode(inputs[i], arguments[i])];
    }
    return Some(encoded);
  }

  /** What a call leaves behind: the values of its arguments, and its return value if it has one. */
  datatype Outcome = Outcome(arguments: seq<Value>, result: Option<Value>)

  function ValueFrom(o: Outcome, source: int): Value
    requires (source == -1 && o.result.Some?) || 0 <= source < |o.arguments|
  {
    if source == -1 then o.result.value else o.arguments[source]
  }

  ghost predicate Covers(o: Outcome, d: Description)
  {
    forall i :: 0 <= i < |d.sources| ==>
      (d.sources[i] == -1 && o.result.Some?) || 0 <= d.sources[i] < |o.arguments|
  }

  /** encodeOutputs on the server. */
  function EncodedOutputs(codec: Codec, d: Description, o: Outcome): (r: seq<Variant>)
    requires |d.outputs| == |d.sources| && Covers(o, d)
    ensures |r| == |d.outputs|
    ensures forall i :: 0 <= i < |r| ==> r[i] == codec.encode(d.outputs[i], ValueFrom(o, d.sources[i]))
  {
    seq(|d.outputs|, i requires 0 <= i < |d.outputs| => codec.encode(d.outputs[i], ValueFrom(o, d.sources[i])))
  }

  /** The destinations after the first k outputs have been assigned. */
  function Assigned(codec: Codec, d: Description, outputs: seq<Variant>, k: nat, before: Outcome): Option<Outcome>
    requires k <= |outputs| == |d.outputs| == |d.sources|
  {
    if k == 0 then Some(before)
    else
      var o := Assigned(codec, d, outputs, k - 1, before);
      if o.None? then None
      else
        var v, s := codec.decode(d.outputs[k - 1], outputs[k - 1]), d.sources[k - 1];
        if v.None? then None
        else if s == -1 && o.value.result.Some? then Some(o.value.(result := Some(v.value)))
        else if 0 <= s < |o.value.arguments| then Some(o.value.(arguments := o.value.arguments[s := v.value]))
        else None
  }

  /** assignCallOutputs: `result` is None when the operation returns nothing. */
  method AssignCallOutputs(codec: Codec, d: Description, success: bool, outputs: seq<Variant>,
                           arguments: array<Value>, result0: Option<Value>)
    returns (ok: bool, result: Option<Value>)
    modifies arguments
    ensures ok <==> success && |outputs| == |d.outputs| == |d.sources|
                    && Assigned(codec, d, outputs, |outputs|, Outcome(old(arguments[..]), result0)).Some?
    ensures ok ==> Assigned(codec, d, outputs, |outputs|, Outcome(old(arguments[..]), result0))
                   == Some(Outcome(arguments[..], result))
  {
    result := result0;
    if !success || |outputs| != |d.outputs| || |d.outputs| != |d.sources| {
      return false, result;
    }
    ghost var before := Outcome(arguments[..], result0);
    for i := 0 to |outputs|
      invariant Assigned(codec, d, outputs, i, before) == Some(Outcome(arguments[..], result))
    {
      var source := d.sources[i];
      var value := codec.decode(d.outputs[i], outputs[i]);
      var destination := (source == -1 && result.Some?) || 0 <= source < arguments.Length;
      if !destination || value.None? {
        FailureStays(codec, d, outputs, i + 1, |outputs|, before);
        return false, result;
      }
      if source == -1 {
        result := Some(value.value);
      } else {
        ghost var held := arguments[..];
        arguments[source] := value.value;
        assert arguments[..] == held[source := value.value];
      }
    }
    return true, result;
  }

  lemma {:induction false} FailureStays(codec: Codec, d: Description, outputs: seq<Variant>, i: nat, k: nat, before: Outcome)
    requires i <= k <= |outputs| == |d.outputs| == |d.sources|
    requires Assigned(codec, d, outputs, i, before).None?
    ensures Assigned(codec, d, outputs, k, before).None?
    decreases k
  {
    if i < k { FailureStays(codec, d, outputs, i, k - 1, before); }
  }

  /** The destinations named by `sources` hold what the call left in them, the others what they held before. */
  ghost predicate Overwritten(sources: seq<int>, before: Outcome, after: Outcome, o: Outcome)
  {
    && |o.arguments| == |before.arguments| == |after.arguments|
    && (o.result.Some? <==> before.result.Some?)
    && (forall t :: 0 <= t < |before.arguments| ==>
          o.arguments[t] == if t in sources then after.arguments[t] else before.arguments[t])
    && o.result == if -1 in sources then after.result else before.result
  }

  function Stored(o: Outcome, source: int, value: Value): Outcome
    requires source == -1 || 0 <= source < |o.arguments|
  {
    if source == -1 then o.(result := Some(value)) else o.(arguments := o.arguments[source := value])
  }

  lemma StoreOne(sources: seq<int>, source: int, before: Outcome, after: Outcome, o: Outcome)
    requires Overwritten(sources, before, after, o)
    requires before.result.Some? <==> after.result.Some?
    requires (source == -1 && after.result.Some?) || 0 <= source < |after.arguments|
    ensures Overwritten(sources + [source], before, after, Stored(o, source, ValueFrom(after, source)))
  {
  }

  /** Assigning the outputs puts each in its place and touches nothing else. */
  lemma {:induction false} AssignedValues(codec: Codec, d: Description, outputs: seq<Variant>, k: nat, before: Outcome,
                                          after: Outcome)
    requires k <= |outputs| == |d.outputs| == |d.sources| && RoundTrips(codec)
    requires Covers(after, d) && outputs == EncodedOutputs(codec, d, after)
    requires |before.arguments| == |after.arguments| && (before.result.Some? <==> after.result.Some?)
    ensures Assigned(codec, d, outputs, k, before).Some?
    ensures Overwritten(d.sources[..k], before, after, Assigned(codec, d, outputs, k, before).value)
  {
    if k > 0 {
      AssignedValues(codec, d, outputs, k - 1, before, after);
      TakeMore(d.sources, k - 1);
      var s := d.sources[k - 1];
      var value := ValueFrom(after, s);
      assert codec.decode(d.outputs[k - 1], outputs[k - 1]) == Some(value);
      var o := Assigned(codec, d, outputs, k - 1, before).value;
      assert o.result.Some? <==> after.result.Some?;
      assert Assigned(codec, d, outputs, k, before) == Some(Stored(o, s, value));
      StoreOne(d.sources[..k - 1], s, before, after, o);
    } else {
      assert d.sources[..0] == [];
    }
  }

  /** A local call changes its mutable arguments and nothing else. */
  ghost predicate IsLocalCall(op: Operation, types: TypeRegistry, before: seq<Value>, after: Outcome)
  {
    && |before| == |op.argumentTypes| == |after.arguments|
    && (after.result.Some? <==> HasValue(types, op.returnType))
    && forall i :: 0 <= i < |before| && i < |op.texts| && !IsMutable(op.texts[i]) ==> after.arguments[i] == before[i]
  }

  /**
    The remote call refines the local one: when the outputs of a local call come back, the
    caller's arguments and return value are what the local call would have made of them.
   */
  lemma RemoteCallRefinesLocal(op: Operation, types: TypeRegistry, codec: Codec, before: seq<Value>, after: Outcome,
                               placeholder: Value)
    requires Describable(op, types) && Regular(op, types) && RoundTrips(codec)
    requires IsLocalCall(op, types, before, after)
    ensures var d := DescriptionOf(op, types);
            var result0 := if after.result.Some? then Some(placeholder) else None;
            && |d.outputs| == |d.sources| && Covers(after, d)
            && Assigned(codec, d, EncodedOutputs(codec, d, after), |d.outputs|, Outcome(before, result0)) == Some(after)
  {
    hide IsMutable, Sources, HasValue, Regular;
    var d := DescriptionOf(op, types);
    RegularSources(op, types);
    RegularLengths(op, types);
    assert Covers(after, d) by {
      forall i | 0 <= i < |d.sources|
        ensures (d.sources[i] == -1 && after.result.Some?) || 0 <= d.sources[i] < |after.arguments|
      {
        assert d.sources[i] in d.sources && SourceOk(d, i);
      }
    }
    var outputs := EncodedOutputs(codec, d, after);
    var result0 := if after.result.Some? then Some(placeholder) else None;
    AssignedValues(codec, d, outputs, |outputs|, Outcome(before, result0), after);
    TakeAll(d.sources);
    var o := Assigned(codec, d, outputs, |outputs|, Outcome(before, result0)).value;
    assert o.arguments == after.arguments;
  }
}
