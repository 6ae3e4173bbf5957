/**
  The object helpers of app/views/utils/utils.js. `objectInject` writes a
  value at the end of a key path, replacing every missing or non-object
  intermediate with a fresh empty object; `mergeStateFromStorage` lays the
  state a component saved earlier over its initial state. Objects are
  modelled as immutable maps from keys to values; the source mutates the
  target in place and returns it, which the model returns as a new map.
 */
module Objects {
  import opened Wrappers
  import opened Js

  /** The own properties of an object. */
  type Fields = map<string, Value>

  /** The value at a non-empty key path, following nested objects. */
  function Lookup(m: Fields, path: seq<string>): Option<Value>
    requires |path| >= 1
    decreases |path|
  {
    if path[0] !in m then None
    else if |path| == 1 then Some(m[path[0]])
    else if m[path[0]].Obj? then Lookup(m[path[0]].fields, path[1..])
    else None
  }

  /** The fields found under `key`: none when the value there is missing or
      not an object (`!res[key] || typeof res[key] !== 'object'`; `null` is
      falsy and every object is truthy, so only objects are kept). */
  function ChildFields(m: Fields, key: string): Fields {
    if key in m && m[key].Obj? then m[key].fields else map[]
  }

  /** `objectInject(target, path, value)`. On an empty path the source first
      writes a property `"undefined"` into the target, then recurses until the
      stack overflows with a `RangeError`, so one key at least is required. */
  function ObjectInject(target: Fields, path: seq<string>, value: Value): (r: Fields)
    requires |path| >= 1
    ensures r.Keys == target.Keys + {path[0]}
    ensures forall k | k in target && k != path[0] :: r[k] == target[k]
    ensures |path| > 1 ==> r[path[0]].Obj?
    decreases |path|
  {
    if |path| == 1 then target[path[0] := value]
    else target[path[0] := Obj(ObjectInject(ChildFields(target, path[0]), path[1..], value))]
  }

  /** `objectInject` on a target of any type. A property of `null` or
      `undefined` can be neither read nor written, and module code runs in
      strict mode, where creating a property on a boolean, number or string
      throws as well: only an object takes the injection. */
  function InjectInto(target: Value, path: seq<string>, value: Value): (r: Result<Value, JsError>)
    requires |path| >= 1
    ensures r.Success? <==> target.Obj?
    ensures r.Failure? ==> r.error == TypeError
    ensures r.Success? ==> r.value.Obj? && Lookup(r.value.fields, path) == Some(value)
  {
    match target
    case Obj(fields) =>
      InjectThenLookup(fields, path, value);
      Success(Obj(ObjectInject(fields, path, value)))
    case _ => Failure(TypeError)
  }

  /** `arr.shift()` at every level empties the caller's key array down to
      its last key: what the caller's array holds after the call. */
  function PathAfterInject(path: seq<string>): (r: seq<string>)
    requires |path| >= 1
    ensures r == [path[|path| - 1]]
  {
    if |path| == 1 then path else PathAfterInject(path[1..])
  }

  /** The nested object that holds only `value` at `path`. */
  function Chain(path: seq<string>, value: Value): Fields
    requires |path| >= 1
    decreases |path|
  {
    if |path| == 1 then map[path[0] := value]
    else map[path[0] := Obj(Chain(path[1..], value))]
  }

  /** The first `n` keys of `path` lead through objects of `m`. */
  predicate ObjectsAlong(m: Fields, path: seq<string>, n: nat)
    requires n <= |path|
    decreases n
  {
    n == 0 || (path[0] in m && m[path[0]].Obj? && ObjectsAlong(m[path[0]].fields, path[1..], n - 1))
  }

  /** After the injection the path leads to the value. */
  lemma {:induction false} InjectThenLookup(target: Fields, path: seq<string>, value: Value)
    requires |path| >= 1
    ensures Lookup(ObjectInject(target, path, value), path) == Some(value)
    decreases |path|
  {
    if |path| > 1 {
      InjectThenLookup(ChildFields(target, path[0]), path[1..], value);
    }
  }

  /** Injecting into an empty object builds the bare chain of objects. */
  lemma {:induction false} InjectIntoEmpty(path: seq<string>, value: Value)
    requires |path| >= 1
    ensures ObjectInject(map[], path, value) == Chain(path, value)
    decreases |path|
  {
    if |path| > 1 {
      InjectIntoEmpty(path[1..], value);
    }
  }

  /** A missing or non-object intermediate is replaced: whatever it held is
      gone and only the injected chain remains under its key. */
  lemma ReplacedIntermediate(target: Fields, path: seq<string>, value: Value)
    requires |path| > 1
    requires path[0] !in target || !target[path[0]].Obj?
    ensures ObjectInject(target, path, value)[path[0]] == Obj(Chain(path[1..], value))
  {
    InjectIntoEmpty(path[1..], value);
  }

  /** Any path that leaves `path` at a key whose prefix was already made of
      objects reads the same after the injection: siblings along the path
      are untouched. */
  lemma {:induction false} OtherPathsUnchanged(target: Fields, path: seq<string>, value: Value, other: seq<string>, i: nat)
    requires |path| >= 1 && i < |path| && i < |other|
    requires other[..i] == path[..i] && other[i] != path[i]
    requires ObjectsAlong(target, path, i)
    ensures Lookup(ObjectInject(target, path, value), other) == Lookup(target, other)
    decreases i
  {
    if i > 0 {
      assert other[0] == path[0];
      assert other[1..][..i - 1] == path[1..][..i - 1];
      OtherPathsUnchanged(target[path[0]].fields, path[1..], value, other[1..], i - 1);
    }
  }

  /** Injecting the same value twice is injecting it once. */
  lemma {:induction false} InjectIdempotent(target: Fields, path: seq<string>, value: Value)
    requires |path| >= 1
    ensures ObjectInject(ObjectInject(target, path, value), path, value) == ObjectInject(target, path, value)
    decreases |path|
  {
    if |path| > 1 {
      var child := ChildFields(target, path[0]);
      InjectIdempotent(child, path[1..], value);
    }
  }

  lemma DecimalDiffers(m: nat, n: nat)
    requires m != n
    ensures NatToDecimal(m) != NatToDecimal(n)
  {
    if NatToDecimal(m) == NatToDecimal(n) {
      DecimalInjective(m, n);
    }
  }

  /** The index properties of a string: character `i` under the key `String(i)`. */
  function StringIndices(s: string): Fields {
    if |s| == 0 then map[]
    else StringIndices(s[..|s| - 1])[NatToDecimal(|s| - 1) := Str([s[|s| - 1]])]
  }

  /** Character `i` of a string sits under the key `String(i)`. */
  lemma {:induction false} StringIndicesValues(s: string)
    ensures forall i: nat | i < |s| :: NatToDecimal(i) in StringIndices(s) && StringIndices(s)[NatToDecimal(i)] == Str([s[i]])
  {
    if |s| > 0 {
      var last := |s| - 1;
      var front := StringIndices(s[..last]);
      var key := NatToDecimal(last);
      assert StringIndices(s) == front[key := Str([s[last]])];
      StringIndicesValues(s[..last]);
      forall i: nat | i < |s|
        ensures NatToDecimal(i) in StringIndices(s) && StringIndices(s)[NatToDecimal(i)] == Str([s[i]])
      {
        if i < last {
          DecimalDiffers(i, last);
          assert s[..last][i] == s[i];
        }
      }
    }
  }

  /** The index keys are the only properties of a string. */
  lemma {:induction false} StringIndicesKeys(s: string)
    ensures StringIndices(s).Keys == IndexKeys(|s|)
  {
    if |s| > 0 {
      var last := |s| - 1;
      StringIndicesKeys(s[..last]);
      IndexKeysStep(last);
    }
  }

  /** The values of `f` below `n`. */
  function Images(f: nat -> string, n: nat): set<string> {
    if n == 0 then {} else Images(f, n - 1) + {f(n - 1)}
  }

  lemma {:induction false} ImagesAre(f: nat -> string, n: nat)
    ensures forall k :: k in Images(f, n) <==> exists i: nat | i < n :: k == f(i)
  {
    if n > 0 {
      ImagesAre(f, n - 1);
      forall k
        ensures k in Images(f, n) <==> exists i: nat | i < n :: k == f(i)
      {
        if k in Images(f, n) && k != f(n - 1) {
          assert Images(f, n) == Images(f, n - 1) + {f(n - 1)};
          assert k in Images(f, n - 1);
          var i: nat :| i < n - 1 && k == f(i);
          assert i < n;
        }
        if exists i: nat | i < n :: k == f(i) {
          var i: nat :| i < n && k == f(i);
          if i < n - 1 {
            assert k in Images(f, n - 1);
          }
        }
      }
    }
  }

  /** The keys `String(i)` of the indices below `n`. */
  function IndexKeys(n: nat): set<string> {
    Images(NatToDecimal, n)
  }

  lemma IndexKeysStep(n: nat)
    ensures IndexKeys(n + 1) == IndexKeys(n) + {NatToDecimal(n)}
  {
    assert Images(NatToDecimal, n + 1) == Images(NatToDecimal, n) + {NatToDecimal(n)};
  }

  /** The index keys are exactly the printed indices below `n`. */
  lemma IndexKeysAre(n: nat)
    ensures forall k :: k in IndexKeys(n) <==> exists i: nat | i < n :: k == NatToDecimal(i)
  {
    forall k
      ensures k in IndexKeys(n) <==> exists i: nat | i < n :: k == NatToDecimal(i)
    {
      IndexKeyIff(n, k);
    }
  }

  lemma IndexKeyIff(n: nat, k: string)
    ensures k in IndexKeys(n) <==> exists i: nat | i < n :: k == NatToDecimal(i)
  {
    ImagesAre(NatToDecimal, n);
    if k in IndexKeys(n) {
      var i: nat :| i < n && k == (NatToDecimal)(i);
      assert k == NatToDecimal(i);
    }
  }

  /** The own enumerable properties `Object.assign` copies from a source:
      an object's fields, a string's characters under their indices, and
      nothing from `null`, a boolean or a number. */
  function OwnProperties(v: Value): Fields {
    match v
    case Obj(f) => f
    case Str(s) => StringIndices(s)
    case _ => map[]
  }

  /** `Object.assign({}, init, source)`. */
  function Assign(init: Fields, source: Value): (r: Fields)
    ensures r.Keys == init.Keys + OwnProperties(source).Keys
    ensures forall k | k in OwnProperties(source) :: r[k] == OwnProperties(source)[k]
    ensures forall k | k in init && k !in OwnProperties(source) :: r[k] == init[k]
  {
    init + OwnProperties(source)
  }

  /** `mergeStateFromStorage(componentName, initState)`, with the value
      `localStorage.getItem` returned (`None` for `null`) and `JSON.parse`
      as parameters. An empty stored string counts as nothing stored; the
      parse is not guarded, so its error escapes. */
  function MergeStateFromStorage(stored: Option<string>, parse: string -> Result<Value, JsError>, init: Fields): (r: Result<Fields, JsError>)
    ensures stored.None? || stored == Some("") ==> r == Success(init)
    ensures stored.Some? && stored.value != "" ==>
      (r.Failure? <==> parse(stored.value).Failure?) &&
      (r.Failure? ==> r.error == parse(stored.value).error)
    ensures r.Success? ==> init.Keys <= r.value.Keys
  {
    assert Assign(init, Obj(map[])) == init;
    match stored
    case None => Success(Assign(init, Obj(map[])))
    case Some(s) =>
      if s == "" then Success(Assign(init, Obj(map[])))
      else
        match parse(s)
        case Failure(e) => Failure(e)
        case Success(v) => Success(Assign(init, v))
  }

  /** What a component saved is what it reads back: when the stored text
      parses to the state that was saved, the merge yields that state over
      the defaults, and exactly that state when it has every default key. */
  lemma SavedStateReadBack(text: string, parse: string -> Result<Value, JsError>, init: Fields, saved: Fields)
    requires text != "" && parse(text) == Success(Obj(saved))
    ensures MergeStateFromStorage(Some(text), parse, init) == Success(init + saved)
    ensures init.Keys <= saved.Keys ==> MergeStateFromStorage(Some(text), parse, init) == Success(saved)
  {
    if init.Keys <= saved.Keys {
      assert (init + saved).Keys == saved.Keys;
      assert init + saved == saved;
    }
  }

  /** Merging the same stored value again changes nothing. */
  lemma MergeIdempotent(stored: Option<string>, parse: string -> Result<Value, JsError>, init: Fields)
    requires MergeStateFromStorage(stored, parse, init).Success?
    ensures MergeStateFromStorage(stored, parse, MergeStateFromStorage(stored, parse, init).value)
         == MergeStateFromStorage(stored, parse, init)
  {
    var merged := MergeStateFromStorage(stored, parse, init).value;
    if stored.Some? && stored.value != "" {
      var own := OwnProperties(parse(stored.value).value);
      assert merged + own == merged;
    }
  }

  /** A stored JSON string spreads its characters over the state: what
      `Object.assign` does with a string source. Character `i` lands under
      the key `String(i)`, and every other key keeps its default. */
  lemma StoredStringSpreads(text: string, parse: string -> Result<Value, JsError>, init: Fields, s: string)
    requires text != "" && parse(text) == Success(Str(s))
    ensures var r := MergeStateFromStorage(Some(text), parse, init);
      && r.Success?
      && r.value.Keys == init.Keys + IndexKeys(|s|)
      && (forall i: nat | i < |s| :: NatToDecimal(i) in r.value && r.value[NatToDecimal(i)] == Str([s[i]]))
      && (forall k | k in init && k !in IndexKeys(|s|) :: r.value[k] == init[k])
  {
    var r := MergeStateFromStorage(Some(text), parse, init);
    assert r == Success(Assign(init, Str(s)));
    SpreadString(init, s);
  }

  lemma SpreadString(init: Fields, s: string)
    ensures var r := Assign(init, Str(s));
      && r.Keys == init.Keys + IndexKeys(|s|)
      && (forall i: nat | i < |s| :: NatToDecimal(i) in r && r[NatToDecimal(i)] == Str([s[i]]))
      && (forall k | k in init && k !in IndexKeys(|s|) :: r[k] == init[k])
  {
    var own := StringIndices(s);
    assert OwnProperties(Str(s)) == own;
    StringIndicesValues(s);
    StringIndicesKeys(s);
  }
}
