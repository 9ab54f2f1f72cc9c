/**
 * The structural updates the web client applies to its preferences object
 * (client/web/src/Preferences.tsx): `mergeConfigs`, which overlays saved
 * preferences on the defaults, `deepSet`, which writes one value at a path,
 * and the `setAll` rule behind the "Use all" / "Exclude all" buttons.
 *
 * JavaScript values are modelled as a datatype. Objects keep their own
 * properties as an ordered list of (key, value) pairs; arrays and strings
 * expose their indices as decimal keys, as spread and `Object.entries` do.
 * A `TypeError` (reading a property of `null` or `undefined`) is `None`.
 */
module WebPreferences {
  import opened Base
  import Text

  datatype JsValue =
    | Undefined
    | Null
    | Bool(b: bool)
    | Num(n: int)
    | Str(s: string)
    | Arr(items: seq<JsValue>)
    | Obj(fields: seq<(string, JsValue)>)

  /** What `typeof` answers; `null` and arrays are objects. */
  datatype JsType = TUndefined | TObject | TBoolean | TNumber | TString

  function TypeOf(x: JsValue): JsType
  {
    match x
    case Undefined => TUndefined
    case Null => TObject
    case Bool(_) => TBoolean
    case Num(_) => TNumber
    case Str(_) => TString
    case Arr(_) => TObject
    case Obj(_) => TObject
  }

  predicate Truthy(x: JsValue)
  {
    match x
    case Undefined => false
    case Null => false
    case Bool(b) => b
    case Num(n) => n != 0
    case Str(s) => s != ""
    case Arr(_) => true
    case Obj(_) => true
  }

  // ---------------------------------------------------------------------------
  // Property lists
  // ---------------------------------------------------------------------------

  /** The value stored under `k`, if any. */
  function Lookup(fields: seq<(string, JsValue)>, k: string): Option<JsValue>
  {
    if fields == [] then None
    else if fields[0].0 == k then Some(fields[0].1)
    else Lookup(fields[1..], k)
  }

  function Keys(fields: seq<(string, JsValue)>): set<string>
  {
    if fields == [] then {} else {fields[0].0} + Keys(fields[1..])
  }

  predicate DistinctKeys(fields: seq<(string, JsValue)>)
  {
    forall i, j :: 0 <= i < j < |fields| ==> fields[i].0 != fields[j].0
  }

  /** `o[k] = v`: an existing key keeps its place, a new one goes last. */
  function Assign(fields: seq<(string, JsValue)>, k: string, v: JsValue): (r: seq<(string, JsValue)>)
    ensures Keys(r) == Keys(fields) + {k}
  {
    if fields == [] then [(k, v)]
    else if fields[0].0 == k then [(k, v)] + fields[1..]
    else
      var rest := Assign(fields[1..], k, v);
      assert ([fields[0]] + rest)[1..] == rest;
      [fields[0]] + rest
  }

  lemma {:induction false} LookupIn(fields: seq<(string, JsValue)>, k: string)
    ensures Lookup(fields, k).Some? <==> k in Keys(fields)
  {
    if fields != [] {
      LookupIn(fields[1..], k);
    }
  }

  /** After `o[k] = v`, reading `k` gives `v` and every other key reads as before. */
  lemma {:induction false} LookupAssign(fields: seq<(string, JsValue)>, k: string, v: JsValue, k': string)
    ensures Lookup(Assign(fields, k, v), k') == if k' == k then Some(v) else Lookup(fields, k')
  {
    if fields != [] && fields[0].0 != k {
      LookupAssign(fields[1..], k, v, k');
    }
  }

  /** Assigning to an existing key of a property list with distinct keys
      does not move it. */
  lemma {:induction false} AssignAt(fields: seq<(string, JsValue)>, i: nat, v: JsValue)
    requires DistinctKeys(fields) && i < |fields|
    ensures Assign(fields, fields[i].0, v) == fields[i := (fields[i].0, v)]
  {
    if i > 0 {
      AssignAt(fields[1..], i - 1, v);
      assert fields[1..][i - 1 := (fields[i].0, v)] == fields[i := (fields[i].0, v)][1..];
    }
  }

  /** Reading `k` finds its first occurrence. */
  lemma {:induction false} LookupFirst(fields: seq<(string, JsValue)>, i: nat, k: string)
    requires i < |fields| && fields[i].0 == k
    requires forall j | 0 <= j < i :: fields[j].0 != k
    ensures Lookup(fields, k) == Some(fields[i].1)
  {
    if i > 0 {
      LookupFirst(fields[1..], i - 1, k);
    }
  }

  lemma {:induction false} LookupAt(fields: seq<(string, JsValue)>, i: nat)
    requires DistinctKeys(fields) && i < |fields|
    ensures Lookup(fields, fields[i].0) == Some(fields[i].1)
  {
    if i > 0 {
      LookupAt(fields[1..], i - 1);
    }
  }

  // ---------------------------------------------------------------------------
  // Property access
  // ---------------------------------------------------------------------------

  /** The array index a property key names, if it is the canonical decimal
      numeral of an index below `n`. */
  function IndexKey(k: string, n: nat): (r: Option<nat>)
    ensures r.Some? ==> r.value < n && k == Text.DecimalString(r.value)
  {
    var i := Text.ParseDecimal(k);
    if i < n && k == Text.DecimalString(i) then Some(i) else None
  }

  lemma {:induction false} IndexKeyOf(i: nat, n: nat)
    requires i < n
    ensures IndexKey(Text.DecimalString(i), n) == Some(i)
  {
    Text.ParseDecimalString(i);
  }

  /** The own enumerable properties, in order, as `{...x}` and
      `Object.entries(x)` list them; `null`, `undefined`, booleans and
      numbers have none. */
  function OwnEntries(x: JsValue): seq<(string, JsValue)>
  {
    match x
    case Obj(fields) => fields
    case Arr(items) => seq(|items|, i requires 0 <= i < |items| => (Text.DecimalString(i), items[i]))
    case Str(s) => seq(|s|, i requires 0 <= i < |s| => (Text.DecimalString(i), Str([s[i]])))
    case _ => []
  }

  /** `Object.entries(x)`, which throws on `null` and `undefined`. */
  function ObjectEntries(x: JsValue): Option<seq<(string, JsValue)>>
  {
    if x == Undefined || x == Null then None else Some(OwnEntries(x))
  }

  /** `Object.prototype.hasOwnProperty.call(x, k)`. */
  function HasOwn(x: JsValue, k: string): Option<bool>
  {
    match x
    case Undefined => None
    case Null => None
    case Obj(fields) => Some(Lookup(fields, k).Some?)
    case Arr(items) => Some(k == "length" || IndexKey(k, |items|).Some?)
    case Str(s) => Some(k == "length" || IndexKey(k, |s|).Some?)
    case _ => Some(false)
  }

  /** `x[k]` for an own property; a missing one reads as `undefined`. */
  function Get(x: JsValue, k: string): Option<JsValue>
  {
    match x
    case Undefined => None
    case Null => None
    case Obj(fields) => Some(match Lookup(fields, k) case Some(v) => v case None => Undefined)
    case Arr(items) =>
      Some(if k == "length" then Num(|items|)
           else match IndexKey(k, |items|) case Some(i) => items[i] case None => Undefined)
    case Str(s) =>
      Some(if k == "length" then Num(|s|)
           else match IndexKey(k, |s|) case Some(i) => Str([s[i]]) case None => Undefined)
    case _ => Some(Undefined)
  }

  /** The value reached by reading the keys of `path` one after another. */
  function At(x: JsValue, path: seq<string>): Option<JsValue>
    decreases path
  {
    if path == [] then Some(x)
    else match Get(x, path[0])
      case None => None
      case Some(y) => At(y, path[1..])
  }

  // ---------------------------------------------------------------------------
  // mergeConfigs
  // ---------------------------------------------------------------------------

  /** `mergeConfigs(a, b)`: the keys of the object `a`, each taking the
      value `b` supplies when `b` owns that key with the same `typeof`.
      A value of `a` that is an array is replaced by `b`'s wholesale, a
      plain object is merged recursively, anything else is taken from `b`.
      `None` is the `TypeError` thrown when `a` holds `null` where `b` holds
      an object, or `b` holds `null` where `a` holds a nonempty object. */
  function MergeConfigs(a: JsValue, b: JsValue): Option<JsValue>
    requires a.Obj?
    decreases a, 1
  {
    MergeFrom(a, b, 0, [])
  }

  /** The `reduce` over `Object.entries(a)` from entry `i` on, with
      accumulator `c`. */
  function MergeFrom(a: JsValue, b: JsValue, i: nat, c: seq<(string, JsValue)>): Option<JsValue>
    requires a.Obj? && i <= |a.fields|
    decreases a, 0, |a.fields| - i
  {
    if i == |a.fields| then Some(Obj(c))
    else
      var (k, v) := a.fields[i];
      assert v < a.fields[i];
      match MergeValue(v, b, k)
      case None => None
      case Some(w) => MergeFrom(a, b, i + 1, Assign(c, k, w))
  }

  /** The value `mergeConfigs` writes for key `k` whose value in `a` is `v`. */
  function MergeValue(v: JsValue, b: JsValue, k: string): Option<JsValue>
    decreases v, 2
  {
    match HasOwn(b, k)
    case None => None
    case Some(has) =>
      var bk := Get(b, k).value;
      if !has || TypeOf(v) != TypeOf(bk) then Some(v)
      else if TypeOf(v) == TObject then
        match HasOwn(v, "length")
        case None => None
        case Some(isArrayLike) => if isArrayLike then Some(bk) else MergeConfigs(v, bk)
      else Some(bk)
  }

  /** The same merge, written as the source writes it: a loop that fills
      the accumulator `c` key by key. */
  method Merge(a: JsValue, b: JsValue) returns (r: Option<JsValue>)
    requires a.Obj?
    ensures r == MergeConfigs(a, b)
    decreases a, 1
  {
    var c: seq<(string, JsValue)> := [];
    var i := 0;
    while i < |a.fields|
      invariant 0 <= i <= |a.fields|
      invariant MergeFrom(a, b, i, c) == MergeConfigs(a, b)
    {
      var (k, v) := a.fields[i];
      assert v < a.fields[i];
      var w := MergeEntry(v, b, k);
      if w.None? {
        return None;
      }
      c := Assign(c, k, w.value);
      i := i + 1;
    }
    r := Some(Obj(c));
  }

  /** One step of that loop: the value written for key `k`. */
  method MergeEntry(v: JsValue, b: JsValue, k: string) returns (w: Option<JsValue>)
    ensures w == MergeValue(v, b, k)
    decreases v, 2
  {
    var has := HasOwn(b, k);
    if has.None? {
      return None;
    }
    var bk := Get(b, k).value;
    if !has.value || TypeOf(v) != TypeOf(bk) {
      w := Some(v);
    } else if TypeOf(v) == TObject {
      var isArrayLike := HasOwn(v, "length");
      if isArrayLike.None? {
        w := None;
      } else if isArrayLike.value {
        w := Some(bk);
      } else {
        w := Merge(v, bk);
      }
    } else {
      w := Some(bk);
    }
  }

  // ---------------------------------------------------------------------------
  // Properties of mergeConfigs
  // ---------------------------------------------------------------------------

  /** Every object reachable through object values has distinct keys, as
      every JavaScript object does. */
  predicate DeepDistinct(a: JsValue)
  {
    match a
    case Obj(fields) => DistinctKeys(fields) && forall i | 0 <= i < |fields| :: DeepDistinct(fields[i].1)
    case _ => true
  }

  /** An object without an own `length`, which `mergeConfigs` recurses into. */
  predicate PlainObject(a: JsValue)
  {
    a.Obj? && Lookup(a.fields, "length").None?
  }

  /** `x` has the shape of `a`: the same `typeof`, and where `a` is a plain
      object, the same keys, each with a value of the shape of `a`'s. */
  predicate Conforms(x: JsValue, a: JsValue)
    decreases a
  {
    TypeOf(x) == TypeOf(a) &&
    (PlainObject(a) ==>
      x.Obj? && Keys(x.fields) == Keys(a.fields) &&
      forall i | 0 <= i < |a.fields| ::
        Lookup(x.fields, a.fields[i].0).Some? && Conforms(Lookup(x.fields, a.fields[i].0).value, a.fields[i].1))
  }

  /** `MergeFrom` succeeds iff every remaining entry merges. */
  lemma {:induction false} MergeFromSome(a: JsValue, b: JsValue, i: nat, c: seq<(string, JsValue)>)
    requires a.Obj? && i <= |a.fields|
    ensures MergeFrom(a, b, i, c).Some? <==> forall j | i <= j < |a.fields| :: MergeValue(a.fields[j].1, b, a.fields[j].0).Some?
    decreases |a.fields| - i
  {
    if i < |a.fields| {
      var w := MergeValue(a.fields[i].1, b, a.fields[i].0);
      if w.Some? {
        MergeFromSome(a, b, i + 1, Assign(c, a.fields[i].0, w.value));
      }
    }
  }

  /** A successful `MergeFrom` appends the remaining entries' merged values
      to the accumulator. */
  lemma {:induction false} MergeFromLookup(a: JsValue, b: JsValue, i: nat, c: seq<(string, JsValue)>)
    requires a.Obj? && i <= |a.fields| && DistinctKeys(a.fields)
    requires MergeFrom(a, b, i, c).Some?
    ensures var x := MergeFrom(a, b, i, c).value;
      x.Obj? && Keys(x.fields) == Keys(c) + Keys(a.fields[i..]) &&
      (forall j | i <= j < |a.fields| :: Lookup(x.fields, a.fields[j].0) == MergeValue(a.fields[j].1, b, a.fields[j].0)) &&
      (forall k | k !in Keys(a.fields[i..]) :: Lookup(x.fields, k) == Lookup(c, k))
    decreases |a.fields| - i
  {
    if i < |a.fields| {
      var k := a.fields[i].0;
      var w := MergeValue(a.fields[i].1, b, k).value;
      var c' := Assign(c, k, w);
      var x := MergeFrom(a, b, i, c).value;
      assert x == MergeFrom(a, b, i + 1, c').value;
      MergeFromLookup(a, b, i + 1, c');
      assert a.fields[i..] == [a.fields[i]] + a.fields[i + 1..];
      KeysTail(a.fields, i);
      LookupAssign(c, k, w, k);
      forall k' | k' !in Keys(a.fields[i..])
        ensures Lookup(x.fields, k') == Lookup(c, k')
      {
        LookupAssign(c, k, w, k');
      }
    }
  }

  /** With distinct keys, the key of entry `i` does not occur after it. */
  lemma {:induction false} KeysTail(fields: seq<(string, JsValue)>, i: nat)
    requires DistinctKeys(fields) && i < |fields|
    ensures fields[i].0 !in Keys(fields[i + 1..])
  {
    var rest := fields[i + 1..];
    forall j | 0 <= j < |rest|
      ensures rest[j].0 != fields[i].0
    {
      assert rest[j] == fields[i + 1 + j];
    }
    KeysOfPositions(rest, fields[i].0);
  }

  /** A position holding a key that a property list has. */
  lemma {:induction false} KeyIndex(fields: seq<(string, JsValue)>, k: string) returns (j: nat)
    requires k in Keys(fields)
    ensures j < |fields| && fields[j].0 == k
  {
    if fields[0].0 == k {
      j := 0;
    } else {
      j := KeyIndex(fields[1..], k);
      j := j + 1;
    }
  }

  /** The keys of a property list are the keys at its positions. */
  lemma {:induction false} KeysOfPositions(fields: seq<(string, JsValue)>, k: string)
    ensures k in Keys(fields) <==> exists j | 0 <= j < |fields| :: fields[j].0 == k
  {
    if k in Keys(fields) {
      var j := KeyIndex(fields, k);
    }
    if exists j | 0 <= j < |fields| :: fields[j].0 == k {
      var j :| 0 <= j < |fields| && fields[j].0 == k;
      KeysHas(fields, j);
    }
  }

  lemma {:induction false} KeysHas(fields: seq<(string, JsValue)>, j: nat)
    requires j < |fields|
    ensures fields[j].0 in Keys(fields)
  {
    if j > 0 {
      KeysHas(fields[1..], j - 1);
    }
  }

  /** `mergeConfigs(a, b)` throws iff merging some key throws; otherwise it
      has exactly `a`'s keys, each holding the value merged for it. */
  lemma {:induction false} MergeConfigsLookup(a: JsValue, b: JsValue)
    requires a.Obj? && DistinctKeys(a.fields)
    ensures MergeConfigs(a, b).Some? <==> forall j | 0 <= j < |a.fields| :: MergeValue(a.fields[j].1, b, a.fields[j].0).Some?
    ensures MergeConfigs(a, b).Some? ==>
      var x := MergeConfigs(a, b).value;
      x.Obj? && Keys(x.fields) == Keys(a.fields) &&
      forall j | 0 <= j < |a.fields| :: Lookup(x.fields, a.fields[j].0) == MergeValue(a.fields[j].1, b, a.fields[j].0)
  {
    MergeFromSome(a, b, 0, []);
    if MergeConfigs(a, b).Some? {
      MergeFromLookup(a, b, 0, []);
      assert a.fields[0..] == a.fields;
    }
  }

  lemma {:induction false} ConformsRefl(a: JsValue)
    requires DeepDistinct(a)
    ensures Conforms(a, a)
    decreases a
  {
    if a.Obj? {
      forall i | 0 <= i < |a.fields|
        ensures Lookup(a.fields, a.fields[i].0).Some? && Conforms(Lookup(a.fields, a.fields[i].0).value, a.fields[i].1)
      {
        LookupAt(a.fields, i);
        ConformsRefl(a.fields[i].1);
      }
    }
  }

  /** Whatever `b` holds, a successful merge has the shape of `a`: loaded
      preferences keep every key and type of the defaults. */
  lemma {:induction false} MergeConforms(a: JsValue, b: JsValue)
    requires a.Obj? && DeepDistinct(a)
    ensures MergeConfigs(a, b).Some? ==> Conforms(MergeConfigs(a, b).value, a)
    decreases a, 1
  {
    if MergeConfigs(a, b).Some? {
      var x := MergeConfigs(a, b).value;
      MergeConfigsLookup(a, b);
      forall i | 0 <= i < |a.fields|
        ensures Lookup(x.fields, a.fields[i].0).Some? && Conforms(Lookup(x.fields, a.fields[i].0).value, a.fields[i].1)
      {
        MergeValueConforms(a.fields[i].1, b, a.fields[i].0);
      }
    }
  }

  lemma {:induction false} MergeValueConforms(v: JsValue, b: JsValue, k: string)
    requires DeepDistinct(v)
    ensures MergeValue(v, b, k).Some? ==> Conforms(MergeValue(v, b, k).value, v)
    decreases v, 2
  {
    var has := HasOwn(b, k);
    if has.Some? {
      var bk := Get(b, k).value;
      if !has.value || TypeOf(v) != TypeOf(bk) {
        ConformsRefl(v);
      } else if TypeOf(v) == TObject && HasOwn(v, "length") == Some(false) {
        MergeConforms(v, bk);
      }
    }
  }

  /** No `null` is stored anywhere inside the object. */
  predicate NullFree(a: JsValue)
  {
    match a
    case Obj(fields) => forall i | 0 <= i < |fields| :: fields[i].1 != Null && NullFree(fields[i].1)
    case _ => true
  }

  /** Merging an object holding no `null` with itself gives it back:
      preferences saved from the defaults load as the defaults. */
  lemma {:induction false} MergeSelf(a: JsValue)
    requires a.Obj? && DeepDistinct(a) && NullFree(a)
    ensures MergeConfigs(a, a) == Some(a)
    decreases a
  {
    forall j | 0 <= j < |a.fields|
      ensures MergeValue(a.fields[j].1, a, a.fields[j].0) == Some(a.fields[j].1)
    {
      var (k, v) := a.fields[j];
      LookupAt(a.fields, j);
      if v.Obj? && Lookup(v.fields, "length").None? {
        MergeSelf(v);
      }
    }
    MergeFromIdentity(a, a, 0);
    assert a.fields[..0] == [];
  }

  /** When every remaining entry merges to itself, the fold rebuilds `a`. */
  lemma {:induction false} MergeFromIdentity(a: JsValue, b: JsValue, i: nat)
    requires a.Obj? && DistinctKeys(a.fields) && i <= |a.fields|
    requires forall j | i <= j < |a.fields| :: MergeValue(a.fields[j].1, b, a.fields[j].0) == Some(a.fields[j].1)
    ensures MergeFrom(a, b, i, a.fields[..i]) == Some(a)
    decreases |a.fields| - i
  {
    if i == |a.fields| {
      assert a.fields[..i] == a.fields;
    } else {
      KeysHead(a.fields, i);
      AssignNew(a.fields[..i], a.fields[i].0, a.fields[i].1);
      assert a.fields[..i] + [(a.fields[i].0, a.fields[i].1)] == a.fields[..i + 1];
      MergeFromIdentity(a, b, i + 1);
    }
  }

  lemma {:induction false} KeysHead(fields: seq<(string, JsValue)>, i: nat)
    requires DistinctKeys(fields) && i < |fields|
    ensures fields[i].0 !in Keys(fields[..i])
  {
    var front := fields[..i];
    forall j | 0 <= j < |front|
      ensures front[j].0 != fields[i].0
    {
      assert front[j] == fields[j];
    }
    KeysOfPositions(front, fields[i].0);
  }

  /** Assigning a new key appends it. */
  lemma {:induction false} AssignNew(fields: seq<(string, JsValue)>, k: string, v: JsValue)
    requires k !in Keys(fields)
    ensures Assign(fields, k, v) == fields + [(k, v)]
  {
    if fields != [] {
      AssignNew(fields[1..], k, v);
      assert [fields[0]] + (fields[1..] + [(k, v)]) == fields + [(k, v)];
    }
  }

  // ---------------------------------------------------------------------------
  // deepSet
  // ---------------------------------------------------------------------------

  /** `{...base, ...over}`: the entries of `over` assigned, in order, on top
      of those of `base`. */
  function SpreadOver(base: seq<(string, JsValue)>, over: seq<(string, JsValue)>): seq<(string, JsValue)>
    decreases over
  {
    if over == [] then base
    else SpreadOver(Assign(base, over[0].0, over[0].1), over[1..])
  }

  /** `deepSet(path, value, obj, merge)`: a copy of `obj` whose property at
      `path` is `value`, or, with `merge`, the spread of the old object there
      overlaid with `value`'s entries. An empty path, or one whose first key
      is the empty string, returns `obj` itself. `None` is the `TypeError`
      of reading a key of `undefined` or `null` on the way. */
  function DeepSet(path: seq<string>, value: JsValue, obj: JsValue, merge: bool): Option<JsValue>
    decreases path, 1
  {
    if path == [] || path[0] == "" then Some(obj)
    else
      match NewValue(path, value, obj, merge)
      case None => None
      case Some(v) => Some(Obj(Assign(OwnEntries(obj), path[0], v)))
  }

  /** The value `deepSet` puts under the first key of `path`. */
  function NewValue(path: seq<string>, value: JsValue, obj: JsValue, merge: bool): Option<JsValue>
    requires path != []
    decreases path, 0
  {
    if |path| == 1 && !merge then Some(value)
    else
      match Get(obj, path[0])
      case None => None
      case Some(child) =>
        if |path| == 1 then Some(Obj(SpreadOver(OwnEntries(child), OwnEntries(value))))
        else DeepSet(path[1..], value, child, merge)
  }

  /** No key of the path is the empty string. */
  predicate KeysNonEmpty(path: seq<string>)
  {
    forall j | 0 <= j < |path| :: path[j] != ""
  }

  /** The value `deepSet` leaves at `path`. */
  function SetValue(path: seq<string>, value: JsValue, obj: JsValue, merge: bool): Option<JsValue>
  {
    if merge then
      match At(obj, path)
      case None => None
      case Some(prior) => Some(Obj(SpreadOver(OwnEntries(prior), OwnEntries(value))))
    else Some(value)
  }

  /** After a successful `deepSet` along nonempty keys, reading `path`
      gives the value written. */
  lemma {:induction false} DeepSetAt(path: seq<string>, value: JsValue, obj: JsValue, merge: bool)
    requires path != [] && KeysNonEmpty(path) && DeepSet(path, value, obj, merge).Some?
    ensures SetValue(path, value, obj, merge).Some?
    ensures At(DeepSet(path, value, obj, merge).value, path) == SetValue(path, value, obj, merge)
    decreases path
  {
    var k := path[0];
    var w := NewValue(path, value, obj, merge).value;
    LookupAssign(OwnEntries(obj), k, w, k);
    assert At(DeepSet(path, value, obj, merge).value, path) == At(w, path[1..]);
    if |path| > 1 {
      var child := Get(obj, k).value;
      KeysNonEmptyTail(path);
      DeepSetAt(path[1..], value, child, merge);
      assert At(obj, path) == At(child, path[1..]);
    } else {
      assert path[1..] == [];
      assert At(obj, path) == Get(obj, k);
    }
  }

  lemma {:induction false} KeysNonEmptyTail(path: seq<string>)
    requires path != [] && KeysNonEmpty(path)
    ensures KeysNonEmpty(path[1..])
  {
    forall j | 0 <= j < |path| - 1
      ensures path[1..][j] != ""
    {
      assert path[1..][j] == path[j + 1];
    }
  }

  /** A path that leaves `path` at position `i`, while `obj` holds objects
      all along `path` up to there. */
  predicate Branches(path: seq<string>, q: seq<string>, obj: JsValue, i: nat)
  {
    i < |path| && i < |q| && q[..i] == path[..i] && q[i] != path[i] &&
    forall j | 0 <= j <= i :: At(obj, path[..j]).Some? && At(obj, path[..j]).value.Obj?
  }

  /** `deepSet` changes nothing off its path: every path that branches off
      it, at any depth, reads the same value as before. */
  lemma {:induction false} DeepSetOthers(path: seq<string>, value: JsValue, obj: JsValue, merge: bool, q: seq<string>, i: nat)
    requires KeysNonEmpty(path) && DeepSet(path, value, obj, merge).Some?
    requires Branches(path, q, obj, i)
    ensures At(DeepSet(path, value, obj, merge).value, q) == At(obj, q)
    decreases i
  {
    var k := path[0];
    var w := NewValue(path, value, obj, merge).value;
    assert At(obj, path[..0]) == Some(obj);
    var x := DeepSet(path, value, obj, merge).value;
    LookupAssign(OwnEntries(obj), k, w, q[0]);
    if i > 0 {
      assert q[0] == q[..i][0] == path[..i][0] == k;
      var child := Get(obj, k).value;
      KeysNonEmptyTail(path);
      BranchesTail(path, q, obj, i);
      DeepSetOthers(path[1..], value, child, merge, q[1..], i - 1);
    }
  }

  lemma {:induction false} BranchesTail(path: seq<string>, q: seq<string>, obj: JsValue, i: nat)
    requires Branches(path, q, obj, i) && i > 0
    ensures Get(obj, path[0]).Some? && Branches(path[1..], q[1..], Get(obj, path[0]).value, i - 1)
  {
    assert At(obj, path[..0]) == Some(obj);
    var child := Get(obj, path[0]).value;
    assert q[1..][..i - 1] == q[..i][1..] == path[..i][1..] == path[1..][..i - 1];
    forall j | 0 <= j <= i - 1
      ensures At(child, path[1..][..j]).Some? && At(child, path[1..][..j]).value.Obj?
    {
      assert path[..j + 1][0] == path[0];
      assert path[..j + 1][1..] == path[1..][..j];
    }
  }

  /** A path without a first key (JavaScript's falsy `path[0]`) leaves the
      object as it is. */
  lemma {:induction false} DeepSetNoKey(path: seq<string>, value: JsValue, obj: JsValue, merge: bool)
    requires path == [] || path[0] == ""
    ensures DeepSet(path, value, obj, merge) == Some(obj)
  {
  }

  /** `setPathValue`: a write below the `toSearch` preferences. */
  function SetPathValue(prefs: JsValue, path: seq<string>, value: JsValue): Option<JsValue>
  {
    DeepSet(["toSearch"] + path, value, prefs, false)
  }

  // ---------------------------------------------------------------------------
  // setAll
  // ---------------------------------------------------------------------------

  /** The property list `{k: v}` for every key `k` of `keys`, as the
      `reduce` in `setAll` builds it. */
  function AllSet(keys: seq<string>, v: bool): seq<(string, JsValue)>
  {
    if keys == [] then []
    else Assign(AllSet(keys[..|keys| - 1], v), keys[|keys| - 1], Bool(v))
  }

  /** That `reduce`, writing `acc[curr] = allValue` key by key. */
  method SetEvery(keys: seq<string>, allValue: bool) returns (acc: seq<(string, JsValue)>)
    ensures acc == AllSet(keys, allValue)
  {
    acc := [];
    for i := 0 to |keys|
      invariant acc == AllSet(keys[..i], allValue)
    {
      assert keys[..i + 1][..i] == keys[..i];
      acc := Assign(acc, keys[i], Bool(allValue));
    }
    assert keys[..|keys|] == keys;
  }

  /** Exactly the given keys are set, each to `v`. */
  lemma {:induction false} AllSetLookup(keys: seq<string>, v: bool, k: string)
    ensures Lookup(AllSet(keys, v), k) == if k in keys then Some(Bool(v)) else None
  {
    if keys != [] {
      var front := keys[..|keys| - 1];
      AllSetLookup(front, v, k);
      LookupAssign(AllSet(front, v), keys[|keys| - 1], Bool(v), k);
      assert keys == front + [keys[|keys| - 1]];
    }
  }

  function EntryKeys(entries: seq<(string, JsValue)>): (r: seq<string>)
    ensures |r| == |entries| && forall i | 0 <= i < |entries| :: r[i] == entries[i].0
  {
    seq(|entries|, i requires 0 <= i < |entries| => entries[i].0)
  }

  predicate IsBookronym(bookronym: string)
  {
    bookronym in {"ot", "nt", "bom", "dc", "pogp"}
  }

  /** The new value `setAll` gives the collection `bookronym`: for the D&C
      the range `[min, allValue ? max : min]`, otherwise every book key of
      the current object set to `allValue`. */
  function AllBooks(toSearch: JsValue, bookronym: string, allValue: bool, min: JsValue, max: JsValue): Option<JsValue>
  {
    if bookronym == "dc" then Some(Obj([("range", Arr([min, if allValue then max else min]))]))
    else
      match Get(toSearch, bookronym)
      case None => None
      case Some(current) =>
        match ObjectEntries(current)
        case None => None
        case Some(entries) => Some(Obj(AllSet(EntryKeys(entries), allValue)))
  }

  /** The `toSearch` object `setAll` builds: a copy of `toSearch` with the
      new value for `bookronym` and a copy of `includeSource`. */
  function SetAllToSearch(toSearch: JsValue, bookronym: string, allValue: bool, min: JsValue, max: JsValue): Option<JsValue>
  {
    match AllBooks(toSearch, bookronym, allValue, min, max)
    case None => None
    case Some(books) =>
      match Get(toSearch, "includeSource")
      case None => None
      case Some(included) =>
        Some(Obj(Assign(Assign(OwnEntries(toSearch), bookronym, books), "includeSource", Obj(OwnEntries(included)))))
  }

  /** The preferences after `setAll(bookronym, allValue, min, max)`. */
  function SetAll(prefs: JsValue, bookronym: string, allValue: bool, min: JsValue, max: JsValue): Option<JsValue>
    requires IsBookronym(bookronym)
  {
    match Get(prefs, "toSearch")
    case None => None
    case Some(toSearch) =>
      match SetAllToSearch(toSearch, bookronym, allValue, min, max)
      case None => None
      case Some(newToSearch) => Some(Obj(Assign(OwnEntries(prefs), "toSearch", newToSearch)))
  }

  /** `setAll` replaces `toSearch` and no other preference. */
  lemma {:induction false} SetAllOthers(prefs: JsValue, bookronym: string, allValue: bool, min: JsValue, max: JsValue)
    requires prefs.Obj? && IsBookronym(bookronym)
    requires SetAll(prefs, bookronym, allValue, min, max).Some?
    ensures var x := SetAll(prefs, bookronym, allValue, min, max).value;
      Get(x, "toSearch") == SetAllToSearch(Get(prefs, "toSearch").value, bookronym, allValue, min, max) &&
      forall k | k != "toSearch" :: Get(x, k) == Get(prefs, k)
  {
    var newToSearch := SetAllToSearch(Get(prefs, "toSearch").value, bookronym, allValue, min, max).value;
    forall k
      ensures Lookup(Assign(prefs.fields, "toSearch", newToSearch), k) == if k == "toSearch" then Some(newToSearch) else Lookup(prefs.fields, k)
    {
      LookupAssign(prefs.fields, "toSearch", newToSearch, k);
    }
  }

  /** In the new `toSearch`, the D&C range becomes `[min, allValue ? max :
      min]`, or every book the collection listed, and only those, is set to
      `allValue`. */
  lemma {:induction false} SetAllBooks(toSearch: JsValue, bookronym: string, allValue: bool, min: JsValue, max: JsValue)
    requires IsBookronym(bookronym)
    requires SetAllToSearch(toSearch, bookronym, allValue, min, max).Some?
    ensures var t := SetAllToSearch(toSearch, bookronym, allValue, min, max).value;
      Get(t, bookronym) == AllBooks(toSearch, bookronym, allValue, min, max) &&
      (bookronym == "dc" ==> Get(t, "dc") == Some(Obj([("range", Arr([min, if allValue then max else min]))])))
  {
    var books := AllBooks(toSearch, bookronym, allValue, min, max).value;
    var inner := Assign(OwnEntries(toSearch), bookronym, books);
    var included := Get(toSearch, "includeSource").value;
    LookupAssign(inner, "includeSource", Obj(OwnEntries(included)), bookronym);
    LookupAssign(OwnEntries(toSearch), bookronym, books, bookronym);
  }

  /** For a book collection, the new value lists exactly the books of the
      current one, each set to `allValue`. */
  lemma {:induction false} AllBooksLookup(toSearch: JsValue, bookronym: string, allValue: bool, min: JsValue, max: JsValue, k: string)
    requires bookronym != "dc" && AllBooks(toSearch, bookronym, allValue, min, max).Some?
    ensures var books := AllBooks(toSearch, bookronym, allValue, min, max).value;
      books.Obj? &&
      Lookup(books.fields, k) == if k in Keys(OwnEntries(Get(toSearch, bookronym).value)) then Some(Bool(allValue)) else None
  {
    var entries := OwnEntries(Get(toSearch, bookronym).value);
    AllSetLookup(EntryKeys(entries), allValue, k);
    KeysOfPositions(entries, k);
  }

  /** `includeSource` and the other collections read as before. */
  lemma {:induction false} SetAllKeeps(toSearch: JsValue, bookronym: string, allValue: bool, min: JsValue, max: JsValue)
    requires toSearch.Obj? && IsBookronym(bookronym)
    requires SetAllToSearch(toSearch, bookronym, allValue, min, max).Some?
    ensures var t := SetAllToSearch(toSearch, bookronym, allValue, min, max).value;
      (Get(toSearch, "includeSource").value.Obj? ==> Get(t, "includeSource") == Get(toSearch, "includeSource")) &&
      forall k | k != bookronym && k != "includeSource" :: Get(t, k) == Get(toSearch, k)
  {
    var books := AllBooks(toSearch, bookronym, allValue, min, max).value;
    var inner := Assign(toSearch.fields, bookronym, books);
    var included := Get(toSearch, "includeSource").value;
    LookupAssign(inner, "includeSource", Obj(OwnEntries(included)), "includeSource");
    forall k | k != bookronym && k != "includeSource"
      ensures Lookup(Assign(inner, "includeSource", Obj(OwnEntries(included))), k) == Lookup(toSearch.fields, k)
    {
      LookupAssign(inner, "includeSource", Obj(OwnEntries(included)), k);
      LookupAssign(toSearch.fields, bookronym, books, k);
    }
  }
}
