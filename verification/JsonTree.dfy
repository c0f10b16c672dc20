/** JSON values as trees, paths into them, and the edits that the configuration transition
    records: guarded leaf patches and unique replacements in an array of strings. */
module JsonTree {
  import opened Wrappers

  datatype Json =
    | Null
    | Bool(b: bool)
    | Int(n: int)
    | Real(r: real)
    | Str(s: string)
    | Arr(items: seq<Json>)
    | Obj(fields: map<string, Json>)

  datatype Segment = Field(name: string) | At(index: nat)

  type Path = seq<Segment>

  /** What a path finds, and what a patch leaves there. */
  datatype Leaf = Absent | Present(value: Json)

  // ------------------------------------------------------------ reading and writing

  function Child(j: Json, seg: Segment): Leaf {
    match seg
    case Field(name) => if j.Obj? && name in j.fields then Present(j.fields[name]) else Absent
    case At(index) => if j.Arr? && index < |j.items| then Present(j.items[index]) else Absent
  }

  /** An object takes any leaf at any name, an array only a value at one of its positions. */
  predicate Settable(j: Json, seg: Segment, leaf: Leaf) {
    match seg
    case Field(_) => j.Obj?
    case At(index) => j.Arr? && index < |j.items| && leaf.Present?
  }

  function SetChild(j: Json, seg: Segment, leaf: Leaf): Json
    requires Settable(j, seg, leaf)
  {
    match seg
    case Field(name) => Obj(if leaf.Present? then j.fields[name := leaf.value] else j.fields - {name})
    case At(index) => Arr(j.items[index := leaf.value])
  }

  function Look(j: Json, path: Path): Leaf {
    if path == [] then Present(j)
    else
      var child := Child(j, path[0]);
      if child.Absent? then Absent else Look(child.value, path[1..])
  }

  predicate Writable(j: Json, path: Path, leaf: Leaf) {
    && path != []
    && if |path| == 1 then Settable(j, path[0], leaf)
       else Child(j, path[0]).Present? && Writable(Child(j, path[0]).value, path[1..], leaf)
  }

  function Write(j: Json, path: Path, leaf: Leaf): Json
    requires Writable(j, path, leaf)
    decreases |path|
  {
    if |path| == 1 then SetChild(j, path[0], leaf)
    else SetChild(j, path[0], Present(Write(Child(j, path[0]).value, path[1..], leaf)))
  }

  // ------------------------------------------------------------ laws

  /** A write is read back. */
  lemma {:induction false} LookWrite(j: Json, path: Path, leaf: Leaf)
    requires Writable(j, path, leaf)
    ensures Look(Write(j, path, leaf), path) == leaf
    decreases |path|
  {
    if |path| > 1 {
      LookWrite(Child(j, path[0]).value, path[1..], leaf);
    }
  }

  /** Writing what is there changes nothing. */
  lemma {:induction false} WriteLook(j: Json, path: Path)
    requires Writable(j, path, Look(j, path))
    ensures Write(j, path, Look(j, path)) == j
    decreases |path|
  {
    if |path| == 1 {
      assert Look(j, path) == Child(j, path[0]);
      if path[0].Field? {
        assert SetChild(j, path[0], Child(j, path[0])).fields == j.fields;
      }
    } else {
      WriteLook(Child(j, path[0]).value, path[1..]);
    }
  }

  /** The last write wins, and may as well have been the only one. */
  lemma {:induction false} WriteWrite(j: Json, path: Path, first: Leaf, second: Leaf)
    requires Writable(j, path, first)
    ensures Writable(Write(j, path, first), path, second) <==> Writable(j, path, second)
    ensures Writable(j, path, second) ==> Write(Write(j, path, first), path, second) == Write(j, path, second)
    decreases |path|
  {
    if |path| > 1 {
      WriteWrite(Child(j, path[0]).value, path[1..], first, second);
    } else if path[0].Field? && j.Obj? {
      var name := path[0].name;
      assert SetChild(SetChild(j, path[0], first), path[0], second).fields == SetChild(j, path[0], second).fields;
    }
  }

  /** Neither path is a prefix of the other. */
  predicate Diverge(p: Path, q: Path) {
    p != [] && q != [] && (p[0] != q[0] || Diverge(p[1..], q[1..]))
  }

  /** A common prefix does not matter. */
  lemma {:induction false} DivergeAfter(prefix: Path, p: Path, q: Path)
    requires Diverge(p, q)
    ensures Diverge(prefix + p, prefix + q)
  {
    if prefix == [] {
      assert prefix + p == p && prefix + q == q;
    } else {
      assert (prefix + p)[1..] == prefix[1..] + p && (prefix + q)[1..] == prefix[1..] + q;
      DivergeAfter(prefix[1..], p, q);
    }
  }

  /** Extending a path keeps it apart from the other. */
  lemma {:induction false} DivergeBelow(upper: Path, lower: Path, other: Path)
    requires Diverge(upper, other)
    ensures Diverge(upper + lower, other)
  {
    assert (upper + lower)[1..] == upper[1..] + lower;
    if upper[0] == other[0] {
      DivergeBelow(upper[1..], lower, other[1..]);
    }
  }

  /** A write leaves everything off its path alone. */
  lemma {:induction false} WriteFrame(j: Json, path: Path, leaf: Leaf, other: Path)
    requires Writable(j, path, leaf) && Diverge(path, other)
    ensures Look(Write(j, path, leaf), other) == Look(j, other)
    decreases |path|
  {
    if |path| > 1 && path[0] == other[0] {
      WriteFrame(Child(j, path[0]).value, path[1..], leaf, other[1..]);
    }
  }

  /** A write below a node is a write of the changed node. */
  lemma {:induction false} WriteBelow(j: Json, upper: Path, lower: Path, leaf: Leaf)
    requires upper != [] && lower != []
    requires Look(j, upper).Present? && Writable(Look(j, upper).value, lower, leaf)
    ensures Writable(j, upper + lower, leaf)
    ensures var node := Present(Write(Look(j, upper).value, lower, leaf));
      Writable(j, upper, node) && Write(j, upper + lower, leaf) == Write(j, upper, node)
    decreases |upper|
  {
    assert (upper + lower)[1..] == upper[1..] + lower;
    if |upper| > 1 {
      WriteBelow(Child(j, upper[0]).value, upper[1..], lower, leaf);
    } else {
      assert upper[1..] + lower == lower;
    }
  }

  /** Looking below a node is looking into the node. */
  lemma {:induction false} LookBelow(j: Json, upper: Path, lower: Path)
    requires Look(j, upper).Present?
    ensures Look(j, upper + lower) == Look(Look(j, upper).value, lower)
  {
    if upper == [] {
      assert upper + lower == lower;
    } else {
      assert (upper + lower)[1..] == upper[1..] + lower;
      LookBelow(Child(j, upper[0]).value, upper[1..], lower);
    }
  }

  // ------------------------------------------------------------ recorded edits

  datatype Edit =
    | Patch(path: Path, before: Leaf, after: Leaf)
    | Replace(path: Path, retired: string, installed: string)

  function Count(items: seq<Json>, item: Json): nat {
    if items == [] then 0 else Count(items[1..], item) + if items[0] == item then 1 else 0
  }

  function Position(items: seq<Json>, item: Json): (k: nat)
    requires Count(items, item) > 0
    ensures k < |items| && items[k] == item && item !in items[..k]
  {
    if items[0] == item then 0 else 1 + Position(items[1..], item)
  }

  /** The precondition that an edit states. */
  predicate Applies(j: Json, e: Edit) {
    match e
    case Patch(path, before, after) => Writable(j, path, after) && Writable(j, path, before) && Look(j, path) == before
    case Replace(path, before, after) =>
      && path != []
      && Look(j, path).Present? && Look(j, path).value.Arr?
      && Count(Look(j, path).value.items, Str(before)) == 1
      && Str(after) !in Look(j, path).value.items
  }

  function Replaced(items: seq<Json>, before: string, after: string): (r: seq<Json>)
    requires Count(items, Str(before)) > 0
  {
    items[Position(items, Str(before)) := Str(after)]
  }

  function Do(j: Json, e: Edit): Json
    requires Applies(j, e)
  {
    match e
    case Patch(path, _, after) => Write(j, path, after)
    case Replace(path, before, after) =>
      WritableAt(j, path, Arr(Replaced(Look(j, path).value.items, before, after)));
      Write(j, path, Present(Arr(Replaced(Look(j, path).value.items, before, after))))
  }

  function Inverse(e: Edit): Edit {
    match e
    case Patch(path, before, after) => Patch(path, after, before)
    case Replace(path, before, after) => Replace(path, after, before)
  }

  /** Whatever a path finds below the root can be overwritten. */
  lemma {:induction false} WritableAt(j: Json, path: Path, value: Json)
    requires path != [] && Look(j, path).Present?
    ensures Writable(j, path, Present(value))
    decreases |path|
  {
    if |path| > 1 {
      WritableAt(Child(j, path[0]).value, path[1..], value);
    }
  }

  lemma {:induction false} CountAbsent(items: seq<Json>, item: Json)
    ensures Count(items, item) == 0 <==> item !in items
  {
    if items != [] {
      CountAbsent(items[1..], item);
    }
  }

  /** Overwriting a position moves one occurrence from the old item to the new one. */
  lemma {:induction false} CountUpdate(items: seq<Json>, k: nat, value: Json, item: Json)
    requires k < |items|
    ensures Count(items[k := value], item) ==
      Count(items, item) - (if items[k] == item then 1 else 0) + (if value == item then 1 else 0)
  {
    if k == 0 {
      assert items[k := value][1..] == items[1..];
    } else {
      assert items[k := value][1..] == items[1..][k - 1 := value];
      CountUpdate(items[1..], k - 1, value, item);
    }
  }

  /** A unique replacement is undone by the opposite unique replacement. */
  lemma ReplacedBack(items: seq<Json>, before: string, after: string)
    requires Count(items, Str(before)) == 1 && Str(after) !in items
    ensures var there := Replaced(items, before, after);
      && Count(there, Str(after)) == 1 && Str(before) !in there
      && Replaced(there, after, before) == items
  {
    var k := Position(items, Str(before));
    var there := items[k := Str(after)];
    CountAbsent(items, Str(after));
    CountUpdate(items, k, Str(after), Str(after));
    CountUpdate(items, k, Str(after), Str(before));
    CountAbsent(there, Str(before));
    assert there[k] == Str(after);
    assert forall i | 0 <= i < |there| && there[i] == Str(after) :: i == k;
  }

  /** Every edit whose precondition holds can be taken back exactly. */
  lemma Undo(j: Json, e: Edit)
    requires Applies(j, e)
    ensures Applies(Do(j, e), Inverse(e)) && Do(Do(j, e), Inverse(e)) == j
  {
    match e
    case Patch(path, before, after) =>
      LookWrite(j, path, after);
      WriteWrite(j, path, after, before);
      WriteWrite(j, path, after, after);
      WriteLook(j, path);
    case Replace(path, before, after) =>
      var items := Look(j, path).value.items;
      var there := Replaced(items, before, after);
      ReplacedBack(items, before, after);
      WritableAt(j, path, Arr(there));
      WritableAt(j, path, Arr(items));
      LookWrite(j, path, Present(Arr(there)));
      WriteWrite(j, path, Present(Arr(there)), Present(Arr(items)));
      WriteLook(j, path);
  }

  // ------------------------------------------------------------ replay

  /** The edits in order, each of which must meet its precondition. */
  function Replay(j: Json, edits: seq<Edit>): Option<Json>
    decreases edits
  {
    if edits == [] then Some(j)
    else if !Applies(j, edits[0]) then None
    else Replay(Do(j, edits[0]), edits[1..])
  }

  /** The opposite edits, last first. */
  function Undoing(edits: seq<Edit>): seq<Edit> {
    if edits == [] then [] else Undoing(edits[1..]) + [Inverse(edits[0])]
  }

  lemma {:induction false} ReplayConcat(j: Json, first: seq<Edit>, second: seq<Edit>)
    ensures Replay(j, first + second) ==
      if Replay(j, first).None? then None else Replay(Replay(j, first).value, second)
    decreases first
  {
    if first == [] {
      assert first + second == second;
    } else if Applies(j, first[0]) {
      assert (first + second)[1..] == first[1..] + second;
      ReplayConcat(Do(j, first[0]), first[1..], second);
    }
  }

  /** A recorded list of edits leads back as exactly as it led forward. */
  lemma {:induction false} ReplayBack(j: Json, edits: seq<Edit>)
    requires Replay(j, edits).Some?
    ensures Replay(Replay(j, edits).value, Undoing(edits)) == Some(j)
    decreases edits
  {
    if edits != [] {
      var next := Do(j, edits[0]);
      var end := Replay(j, edits).value;
      ReplayBack(next, edits[1..]);
      ReplayConcat(end, Undoing(edits[1..]), [Inverse(edits[0])]);
      Undo(j, edits[0]);
      assert [Inverse(edits[0])][1..] == [];
    }
  }

  /** Edits leave alone whatever lies off all of their paths. */
  lemma {:induction false} ReplayFrame(j: Json, edits: seq<Edit>, other: Path)
    requires Replay(j, edits).Some? && forall e | e in edits :: Diverge(e.path, other)
    ensures Look(Replay(j, edits).value, other) == Look(j, other)
    decreases edits
  {
    if edits != [] {
      var e := edits[0];
      if e.Replace? {
        WritableAt(j, e.path, Arr(Replaced(Look(j, e.path).value.items, e.retired, e.installed)));
        WriteFrame(j, e.path, Present(Arr(Replaced(Look(j, e.path).value.items, e.retired, e.installed))), other);
      } else {
        WriteFrame(j, e.path, e.after, other);
      }
      ReplayFrame(Do(j, e), edits[1..], other);
    }
  }

  // ------------------------------------------------------------ equality of the source language

  /** Numbers and booleans compare by numeric value. */
  function Canon(j: Json): Json {
    match j
    case Bool(b) => Int(if b then 1 else 0)
    case Real(r) => if r == r.Floor as real then Int(r.Floor) else j
    case Arr(items) => Arr(seq(|items|, k requires 0 <= k < |items| => Canon(items[k])))
    case Obj(fields) => Obj(map n | n in fields :: Canon(fields[n]))
    case _ => j
  }

  predicate Same(a: Json, b: Json) {
    Canon(a) == Canon(b)
  }

  /** The two trees have the same shape and the same type at every leaf. */
  predicate SameTypes(a: Json, b: Json) {
    match a
    case Null => b.Null?
    case Bool(_) => b.Bool?
    case Int(_) => b.Int?
    case Real(_) => b.Real?
    case Str(_) => b.Str?
    case Arr(items) => b.Arr? && |items| == |b.items| && forall k | 0 <= k < |items| :: SameTypes(items[k], b.items[k])
    case Obj(fields) =>
      b.Obj? && fields.Keys == b.fields.Keys && forall n | n in fields :: SameTypes(fields[n], b.fields[n])
  }

  /** The comparison is exact precisely when no leaf changed its type. */
  lemma {:induction false} SameIsExact(a: Json, b: Json)
    ensures a == b <==> Same(a, b) && SameTypes(a, b)
  {
    match a
    case Arr(items) =>
      forall k | 0 <= k < |items|
        ensures b.Arr? && k < |b.items| ==>
          (items[k] == b.items[k] <==> Same(items[k], b.items[k]) && SameTypes(items[k], b.items[k]))
      {
        if b.Arr? && k < |b.items| { SameIsExact(items[k], b.items[k]); }
      }
      if b.Arr? && Same(a, b) {
        forall k | 0 <= k < |items| ensures Same(items[k], b.items[k]) {
          assert Canon(a).items[k] == Canon(b).items[k];
        }
      }
    case Obj(fields) =>
      forall n | n in fields
        ensures b.Obj? && n in b.fields ==>
          (fields[n] == b.fields[n] <==> Same(fields[n], b.fields[n]) && SameTypes(fields[n], b.fields[n]))
      {
        if b.Obj? && n in b.fields { SameIsExact(fields[n], b.fields[n]); }
      }
      if b.Obj? && Same(a, b) {
        forall n | n in fields && n in b.fields ensures Same(fields[n], b.fields[n]) {
          assert Canon(a).fields[n] == Canon(b).fields[n];
        }
      }
    case _ =>
  }

  /** Writing an equal value gives an equal tree. */
  lemma {:induction false} WriteSame(j: Json, path: Path, first: Json, second: Json)
    requires Writable(j, path, Present(first)) && Writable(j, path, Present(second)) && Same(first, second)
    ensures Same(Write(j, path, Present(first)), Write(j, path, Present(second)))
    decreases |path|
  {
    var a, b := first, second;
    if |path| > 1 {
      var child := Child(j, path[0]).value;
      WriteSame(child, path[1..], first, second);
      a, b := Write(child, path[1..], Present(first)), Write(child, path[1..], Present(second));
    }
    var wa, wb := SetChild(j, path[0], Present(a)), SetChild(j, path[0], Present(b));
    if j.Obj? {
      assert Canon(wa).fields == Canon(wb).fields;
    } else {
      assert Canon(wa).items == Canon(wb).items;
    }
  }
}
