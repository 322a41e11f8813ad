/**
 * JSON-like documents: the values a config's metadata holds, the override
 * merge a PATCH applies, and the dotted-path lookup and stringification a
 * search applies.
 */
module Documents {
  import opened Wrappers
  import opened Strings

  /** A decoded JSON value. Numbers are integers only. */
  datatype Doc =
    | Null
    | Bool(b: bool)
    | Int(i: int)
    | Str(s: string)
    | Arr(items: seq<Doc>)
    | Obj(fields: map<string, Doc>)

  // ---------------------------------------------------------------------------
  // Merge engine
  // ---------------------------------------------------------------------------

  /**
   * Override merge of `overlay` onto `base`: where both are objects, every key
   * of either survives; a key only the overlay has takes the overlay's value, a
   * key both have is merged again one level down. Anywhere else the overlay's
   * value replaces the base's outright (scalars, arrays and null are never
   * combined).
   */
  function Merge(base: Doc, overlay: Doc): Doc
  {
    if base.Obj? && overlay.Obj? then
      Obj(map k | k in base.fields.Keys + overlay.fields.Keys ::
        if k in overlay.fields then
          (if k in base.fields then Merge(base.fields[k], overlay.fields[k]) else overlay.fields[k])
        else base.fields[k])
    else overlay
  }

  /**
   * The merge of two objects' members, as a map: every key of either side,
   * base-only keys with their base values, and the overlay's value wherever the
   * two values are not both objects.
   */
  function MergeFields(base: map<string, Doc>, overlay: map<string, Doc>): (r: map<string, Doc>)
    ensures r.Keys == base.Keys + overlay.Keys
    ensures forall k :: k in base && k !in overlay ==> r[k] == base[k]
    ensures forall k :: k in overlay && !(k in base && base[k].Obj? && overlay[k].Obj?) ==> r[k] == overlay[k]
    ensures forall k :: k in overlay && k in base ==> r[k] == Merge(base[k], overlay[k])
  {
    var r := Merge(Obj(base), Obj(overlay)).fields;
    assert forall k :: k in overlay && k in base && !(base[k].Obj? && overlay[k].Obj?) ==>
      Merge(base[k], overlay[k]) == overlay[k];
    r
  }

  /** `d` carries every value `overlay` supplies: the same leaf wherever the overlay has a non-object. */
  predicate Supplies(d: Doc, overlay: Doc)
  {
    if overlay.Obj? then
      d.Obj? && forall k :: k in overlay.fields ==> k in d.fields && Supplies(d.fields[k], overlay.fields[k])
    else d == overlay
  }

  lemma {:induction false} SuppliesReflexive(d: Doc)
    ensures Supplies(d, d)
  {
    if d.Obj? {
      forall k | k in d.fields
        ensures Supplies(d.fields[k], d.fields[k])
      {
        SuppliesReflexive(d.fields[k]);
      }
    }
  }

  /** Overlay values win, at every depth: the merge result supplies everything the overlay does. */
  lemma {:induction false} MergeOverlayWins(base: Doc, overlay: Doc)
    ensures Supplies(Merge(base, overlay), overlay)
  {
    var r := Merge(base, overlay);
    if base.Obj? && overlay.Obj? {
      forall k | k in overlay.fields
        ensures k in r.fields && Supplies(r.fields[k], overlay.fields[k])
      {
        if k in base.fields {
          MergeOverlayWins(base.fields[k], overlay.fields[k]);
        } else {
          SuppliesReflexive(overlay.fields[k]);
        }
      }
    } else {
      SuppliesReflexive(overlay);
    }
  }

  /** Merging a document onto itself changes nothing. */
  lemma {:induction false} MergeSelf(d: Doc)
    ensures Merge(d, d) == d
  {
    if d.Obj? {
      forall k | k in d.fields
        ensures Merge(d, d).fields[k] == d.fields[k]
      {
        MergeSelf(d.fields[k]);
      }
      assert Merge(d, d).fields == d.fields;
    }
  }

  /** Applying the same overlay twice is the same as applying it once. */
  lemma {:induction false} MergeIdempotent(base: Doc, overlay: Doc)
    ensures Merge(Merge(base, overlay), overlay) == Merge(base, overlay)
  {
    var m := Merge(base, overlay);
    if base.Obj? && overlay.Obj? {
      var mm := Merge(m, overlay);
      forall k | k in m.fields
        ensures mm.fields[k] == m.fields[k]
      {
        if k in overlay.fields {
          if k in base.fields {
            MergeIdempotent(base.fields[k], overlay.fields[k]);
          } else {
            MergeSelf(overlay.fields[k]);
          }
        }
      }
      assert mm.fields == m.fields;
    } else {
      MergeSelf(overlay);
    }
  }

  /**
   * The override rule at the top level: a base or overlay that is not an object
   * is replaced by the overlay outright, and an object overlay merged onto an
   * empty object comes out as the overlay itself.
   */
  lemma MergeReplaces(base: Doc, overlay: Doc)
    ensures !overlay.Obj? ==> Merge(base, overlay) == overlay
    ensures !base.Obj? ==> Merge(base, overlay) == overlay
    ensures overlay.Obj? ==> Merge(Obj(map[]), overlay) == overlay
  {
    if overlay.Obj? {
      assert Merge(Obj(map[]), overlay).fields == overlay.fields;
    }
  }

  /** Merging an empty object changes nothing: an overlay without keys is a no-op. */
  lemma MergeEmptyOverlay(fields: map<string, Doc>)
    ensures Merge(Obj(fields), Obj(map[])) == Obj(fields)
  {
    assert Merge(Obj(fields), Obj(map[])).fields == fields;
  }

  // ---------------------------------------------------------------------------
  // Path resolution and stringification (the subset of gjson the query uses)
  // ---------------------------------------------------------------------------

  /** A path segment read as an array index: a non-empty run of digits, leading zeros allowed. */
  function ParseIndex(seg: string): Option<nat>
  {
    if seg != "" && IsDigits(seg) then Some(DecimalValue(seg)) else None
  }

  /** The decimal text of every index reads back as that index, and a segment with a non-digit is no index. */
  lemma ParseIndexDecimal(n: nat, seg: string)
    ensures ParseIndex(NatToDecimal(n)) == Some(n)
    ensures (exists j :: 0 <= j < |seg| && !IsDigit(seg[j])) ==> ParseIndex(seg) == None
  {
  }

  /** One step of a path: an object's member by key, or an array's element by decimal index. */
  function Child(d: Doc, seg: string): (r: Option<Doc>)
    ensures r.Some? ==> r.value < d
  {
    match d
    case Obj(fields) => if seg in fields then Some(fields[seg]) else None
    case Arr(items) =>
      (match ParseIndex(seg)
       case Some(n) => if n < |items| then Some(items[n]) else None
       case None => None)
    case _ => None
  }

  /**
   * One step selects an object's member under its key, an array's element under
   * the decimal text of an index in range, and nothing otherwise.
   */
  lemma ChildSelects(d: Doc, seg: string, n: nat)
    ensures d.Obj? ==> Child(d, seg) == if seg in d.fields then Some(d.fields[seg]) else None
    ensures d.Arr? ==> Child(d, NatToDecimal(n)) == if n < |d.items| then Some(d.items[n]) else None
    ensures d.Arr? && seg == "" ==> Child(d, seg) == None
    ensures !d.Obj? && !d.Arr? ==> Child(d, seg) == None
  {
  }

  /** Follows `path` from `d`; None as soon as a segment is missing or lands on a scalar. */
  function Resolve(d: Doc, path: seq<string>): Option<Doc>
    decreases |path|
  {
    if path == [] then Some(d)
    else
      match Child(d, path[0])
      case None => None
      case Some(c) => Resolve(c, path[1..])
  }

  /** A longer path resolves by resolving its prefix first, then the rest from there. */
  lemma {:induction false} ResolveConcat(d: Doc, p: seq<string>, q: seq<string>)
    ensures Resolve(d, p + q) == (match Resolve(d, p) case None => None case Some(e) => Resolve(e, q))
    decreases |p|
  {
    if p != [] {
      assert (p + q)[0] == p[0];
      assert (p + q)[1..] == p[1..] + q;
      match Child(d, p[0])
      case None =>
      case Some(c) => ResolveConcat(c, p[1..], q);
    } else {
      assert p + q == q;
    }
  }

  /** Along `path`, every step is an object member that exists. */
  predicate MembersAlong(d: Doc, path: seq<string>)
    decreases |path|
  {
    path == [] || (d.Obj? && path[0] in d.fields && MembersAlong(d.fields[path[0]], path[1..]))
  }

  /** The overlay descends along `path` through objects and lacks one of its keys before the end. */
  predicate LeavesAlone(overlay: Doc, path: seq<string>)
    decreases |path|
  {
    path != [] && overlay.Obj? &&
    (path[0] !in overlay.fields || LeavesAlone(overlay.fields[path[0]], path[1..]))
  }

  /** A base value the overlay does not reach is kept by the merge. */
  lemma {:induction false} MergeKeepsUntouched(base: Doc, overlay: Doc, path: seq<string>)
    requires MembersAlong(base, path)
    requires LeavesAlone(overlay, path)
    ensures Resolve(base, path).Some?
    ensures Resolve(Merge(base, overlay), path) == Resolve(base, path)
    decreases |path|
  {
    var r := Merge(base, overlay);
    var k := path[0];
    assert r.fields[k] == if k in overlay.fields then Merge(base.fields[k], overlay.fields[k]) else base.fields[k];
    if k in overlay.fields {
      MergeKeepsUntouched(base.fields[k], overlay.fields[k], path[1..]);
    } else {
      ResolveMembers(base.fields[k], path[1..]);
    }
  }

  lemma {:induction false} ResolveMembers(d: Doc, path: seq<string>)
    requires MembersAlong(d, path)
    ensures Resolve(d, path).Some?
    decreases |path|
  {
    if path != [] {
      ResolveMembers(d.fields[path[0]], path[1..]);
    }
  }

  /** A lookup that fails stays failed however the path goes on, and a scalar has no parts. */
  lemma ResolveStops(d: Doc, p: seq<string>, q: seq<string>)
    ensures Resolve(d, p) == None ==> Resolve(d, p + q) == None
    ensures !d.Obj? && !d.Arr? && q != [] ==> Resolve(d, q) == None
  {
    ResolveConcat(d, p, q);
  }

  /** Where the overlay places a non-object value, the merge result holds exactly that value. */
  lemma {:induction false} MergeSetsLeaf(base: Doc, overlay: Doc, path: seq<string>, v: Doc)
    requires Resolve(overlay, path) == Some(v) && !v.Obj?
    ensures Resolve(Merge(base, overlay), path) == Some(v)
    decreases |path|
  {
    if path != [] && base.Obj? && overlay.Obj? {
      var k := path[0];
      var r := Merge(base, overlay);
      assert k in overlay.fields;
      if k in base.fields {
        assert r.fields[k] == Merge(base.fields[k], overlay.fields[k]);
        MergeSetsLeaf(base.fields[k], overlay.fields[k], path[1..], v);
      } else {
        assert r.fields[k] == overlay.fields[k];
      }
    }
  }

  /**
   * The text a resolved value compares as: a missing path and null read as the
   * empty string, booleans as "true"/"false", numbers in decimal, strings as
   * themselves. Arrays and objects read as their raw JSON text, which `raw`
   * supplies (the serialiser's exact output is not part of this model).
   */
  function Stringify(r: Option<Doc>, raw: Doc -> string): (text: string)
    ensures r == None || r == Some(Null) ==> text == ""
    ensures r.Some? && r.value.Bool? ==> (text == "true" <==> r.value.b) && (text == "false" <==> !r.value.b)
    ensures r.Some? && r.value.Str? ==> text == r.value.s
    ensures r.Some? && r.value.Int? ==> text == IntToDecimal(r.value.i) && (text[0] == '-' <==> r.value.i < 0)
    ensures r.Some? && (r.value.Arr? || r.value.Obj?) ==> text == raw(r.value)
  {
    match r
    case None => ""
    case Some(d) =>
      match d
      case Null => ""
      case Bool(b) => if b then "true" else "false"
      case Int(i) => IntToDecimal(i)
      case Str(s) => s
      case _ => raw(d)
  }

  /** Numbers compare by value: equal texts mean equal integers. */
  lemma StringifyIntInjective(i: int, j: int, raw: Doc -> string)
    requires Stringify(Some(Int(i)), raw) == Stringify(Some(Int(j)), raw)
    ensures i == j
  {
    IntToDecimalInjective(i, j);
  }

  /** The example of a patch: siblings survive, shared keys take the overlay's value, new keys are added. */
  lemma MergeExample()
    ensures
      var base := Obj(map["a" := Obj(map["x" := Str("1"), "y" := Str("2")])]);
      var overlay := Obj(map["a" := Obj(map["y" := Str("3"), "z" := Str("4")])]);
      Merge(base, overlay) == Obj(map["a" := Obj(map["x" := Str("1"), "y" := Str("3"), "z" := Str("4")])])
  {
    var inner := Merge(Obj(map["x" := Str("1"), "y" := Str("2")]), Obj(map["y" := Str("3"), "z" := Str("4")]));
    assert inner.fields == map["x" := Str("1"), "y" := Str("3"), "z" := Str("4")];
    var outer := Merge(Obj(map["a" := Obj(map["x" := Str("1"), "y" := Str("2")])]),
                       Obj(map["a" := Obj(map["y" := Str("3"), "z" := Str("4")])]));
    assert outer.fields == map["a" := inner];
  }
}
