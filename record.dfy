/** The resume record (ResumeMaker.resumeData): its defaults, the
    `{...defaults, ...parsed}` merge used by import and load, and the
    dotted-path assignment of updateData. */
module Record {
  import opened Wrappers
  import opened JsValues

  /** The record is a plain object: property name to value. */
  type Data = map<string, Value>

  /** The string-valued keys of getDefaultData, in declaration order. */
  const ScalarKeys: seq<string> :=
    ["fullName", "jobTitle", "email", "phone", "location", "website", "linkedin", "summary", "photo"]

  /** The array-valued keys of getDefaultData, in declaration order. */
  const SectionKeys: seq<string> :=
    ["experience", "education", "skills", "projects", "certifications", "languages"]

  /** getDefaultData: every scalar key holds '' and every section key []. */
  function DefaultData(): (d: Data)
    ensures d.Keys == (set k | k in ScalarKeys) + (set k | k in SectionKeys)
    ensures forall k :: k in ScalarKeys ==> d[k] == Str("")
    ensures forall k :: k in SectionKeys ==> d[k] == List([])
  {
    map k | k in ScalarKeys + SectionKeys :: if k in ScalarKeys then Str("") else List([])
  }

  /** The record has every key of getDefaultData. */
  predicate HasDefaultKeys(d: Data) {
    forall k :: k in ScalarKeys + SectionKeys ==> k in d
  }

  /** Own enumerable properties of a sequence spread into an object:
      index i becomes key DecimalKey(i). */
  function SpreadSeq(xs: seq<Value>): (m: Data)
    ensures forall k :: k in m ==> k != "" && '0' <= k[0] <= '9'
  {
    if xs == [] then map[]
    else SpreadSeq(xs[..|xs| - 1])[DecimalKey(|xs| - 1) := xs[|xs| - 1]]
  }

  /** `k` spells one of the indices below `n`. */
  predicate IsIndexKey(k: string, n: nat) {
    exists i :: 0 <= i < n && k == DecimalKey(i)
  }

  /** Every index of the sequence is a key of its spread, holding that
      index's element. */
  lemma {:induction false} SpreadSeqHasIndices(xs: seq<Value>)
    ensures forall i :: 0 <= i < |xs| ==> DecimalKey(i) in SpreadSeq(xs) && SpreadSeq(xs)[DecimalKey(i)] == xs[i]
  {
    if xs != [] {
      var n := |xs| - 1;
      SpreadSeqHasIndices(xs[..n]);
      var front := SpreadSeq(xs[..n]);
      forall i | 0 <= i < n ensures DecimalKey(i) != DecimalKey(n) && front[DecimalKey(i)] == xs[i] {
        if DecimalKey(i) == DecimalKey(n) { DecimalKeyInjective(i, n); }
        assert xs[..n][i] == xs[i];
      }
    }
  }

  /** The spread has no key besides the indices of the sequence. */
  lemma {:induction false} SpreadSeqOnlyIndices(xs: seq<Value>)
    ensures forall k :: k in SpreadSeq(xs) ==> IsIndexKey(k, |xs|)
  {
    if xs != [] {
      var n := |xs| - 1;
      SpreadSeqOnlyIndices(xs[..n]);
      assert SpreadSeq(xs) == SpreadSeq(xs[..n])[DecimalKey(n) := xs[n]];
      forall k | k in SpreadSeq(xs) ensures IsIndexKey(k, |xs|) {
        if k != DecimalKey(n) {
          assert IsIndexKey(k, n);
          var i :| 0 <= i < n && k == DecimalKey(i);
          assert 0 <= i < |xs| && k == DecimalKey(i);
        } else {
          assert 0 <= n < |xs| && k == DecimalKey(n);
        }
      }
    }
  }

  /** The properties `...v` contributes to an object literal: an object's
      own properties, an array's or a string's indices, nothing for null
      and booleans. */
  function Spread(v: Value): (m: Data)
    ensures v.Obj? ==> m == v.fields
    ensures v.Null? || v.Bool? ==> m == map[]
    ensures v.List? ==> forall i :: 0 <= i < |v.items| ==> DecimalKey(i) in m && m[DecimalKey(i)] == v.items[i]
    ensures v.List? ==> forall k :: k in m ==> IsIndexKey(k, |v.items|)
    ensures v.Str? ==> forall i :: 0 <= i < |v.s| ==> DecimalKey(i) in m && m[DecimalKey(i)] == Str([v.s[i]])
    ensures v.Str? ==> forall k :: k in m ==> IsIndexKey(k, |v.s|)
    ensures !v.Obj? ==> forall k :: k in m ==> k != "" && '0' <= k[0] <= '9'
  {
    match v
    case Obj(fields) => fields
    case List(xs) =>
      SpreadSeqHasIndices(xs);
      SpreadSeqOnlyIndices(xs);
      SpreadSeq(xs)
    case Str(s) =>
      var chars := seq(|s|, i requires 0 <= i < |s| => Str([s[i]]));
      SpreadSeqHasIndices(chars);
      SpreadSeqOnlyIndices(chars);
      SpreadSeq(chars)
    case _ => map[]
  }

  /** `{ ...this.getDefaultData(), ...parsed }` (import and load): every
      default key is there, parsed keys win, absent keys keep '' or []. */
  function FromExchange(parsed: Value): (d: Data)
    ensures HasDefaultKeys(d)
    ensures d.Keys == DefaultData().Keys + Spread(parsed).Keys
    ensures forall k :: k in Spread(parsed) ==> d[k] == Spread(parsed)[k]
    ensures forall k :: k in DefaultData() && k !in Spread(parsed) ==> d[k] == DefaultData()[k]
  {
    DefaultData() + Spread(parsed)
  }

  /** The default keys are all alphabetic, so spreading an array or a
      string adds index keys and never overrides one of them. */
  lemma ImportNonObjectKeepsDefaults(parsed: Value)
    requires !parsed.Obj?
    ensures forall k :: k in DefaultData() ==> FromExchange(parsed)[k] == DefaultData()[k]
  {
    forall k | k in DefaultData() ensures k !in Spread(parsed) {
      assert k != "" && !('0' <= k[0] <= '9');
    }
  }

  /** Merging a record that already has every default key changes nothing:
      saving a record and loading it back (with a codec that round-trips)
      restores it exactly. */
  lemma MergeRestoresCompleteRecord(d: Data)
    requires HasDefaultKeys(d)
    ensures FromExchange(Obj(d)) == d
  {
  }

  /** Merging is idempotent: importing an exported record again gives the
      same record. */
  lemma MergeIdempotent(parsed: Value)
    ensures FromExchange(Obj(FromExchange(parsed))) == FromExchange(parsed)
  {
    MergeRestoresCompleteRecord(FromExchange(parsed));
  }

  // ---------------------------------------------------------------------
  // Dotted paths (updateData)
  // ---------------------------------------------------------------------

  /** The object the walk of updateData continues into at `k`: the existing
      object, or the `{}` that replaces a falsy or missing value. */
  function Child(m: Data, k: string): Data
  {
    if k in m && m[k].Obj? then m[k].fields else map[]
  }

  /** Every value met before the leaf is an object, falsy or missing. A
      truthy primitive there makes the source throw a TypeError (class
      bodies are strict), and arrays are not modelled as intermediates. */
  predicate Walkable(m: Data, keys: seq<string>)
    decreases |keys|
  {
    |keys| <= 1 ||
    ((keys[0] !in m || !Truthy(m[keys[0]]) || m[keys[0]].Obj?) && Walkable(Child(m, keys[0]), keys[1..]))
  }

  /** The value reached by following `keys` through nested objects; None
      when a step is missing or is not an object. */
  function GetPath(m: Data, keys: seq<string>): Option<Value>
    requires |keys| >= 1
    decreases |keys|
  {
    if |keys| == 1 then Field(m, keys[0])
    else if keys[0] in m && m[keys[0]].Obj? then GetPath(m[keys[0]].fields, keys[1..])
    else None
  }

  /** The record after `obj[keys[n-1]] = v` at the end of the walk. This
      is a total extension of the source's walk: on a path that is not
      Walkable the source throws, and AssignPath and UpdateData, which
      model updateData, require Walkable, so that case never reaches
      them. */
  function SetPath(m: Data, keys: seq<string>, v: Value): Data
    requires |keys| >= 1
    decreases |keys|
  {
    if |keys| == 1 then m[keys[0] := v]
    else m[keys[0] := Obj(SetPath(Child(m, keys[0]), keys[1..], v))]
  }

  /** The assignment adds at most the path's first key to the top level
      and removes none. */
  lemma SetPathKeys(m: Data, keys: seq<string>, v: Value)
    requires |keys| >= 1
    ensures SetPath(m, keys, v).Keys == m.Keys + {keys[0]}
  {
  }

  /** After the assignment the leaf holds the new value. */
  lemma {:induction false} SetThenGet(m: Data, keys: seq<string>, v: Value)
    requires |keys| >= 1
    ensures GetPath(SetPath(m, keys, v), keys) == Some(v)
    decreases |keys|
  {
    if |keys| > 1 {
      SetThenGet(Child(m, keys[0]), keys[1..], v);
    }
  }

  /** `p` leaves the path `keys` at some step: neither is a prefix of the
      other. */
  predicate Diverges(p: seq<string>, keys: seq<string>) {
    exists j :: 0 <= j < |p| && j < |keys| && p[j] != keys[j]
  }

  /** Every path that leaves the assigned path reads as before. */
  lemma {:induction false} SetLeavesOtherPaths(m: Data, keys: seq<string>, v: Value, p: seq<string>)
    requires |keys| >= 1 && |p| >= 1
    requires Diverges(p, keys)
    ensures GetPath(SetPath(m, keys, v), p) == GetPath(m, p)
    decreases |keys|
  {
    if p[0] != keys[0] {
    } else {
      var j :| 0 <= j < |p| && j < |keys| && p[j] != keys[j];
      assert j > 0;
      assert p[1..][j - 1] != keys[1..][j - 1];
      SetLeavesOtherPaths(Child(m, keys[0]), keys[1..], v, p[1..]);
    }
  }

  /** Every step before the leaf is an object afterwards; a step that was
      falsy or missing is a new object holding only the next key. */
  lemma {:induction false} SetMakesIntermediateObjects(m: Data, keys: seq<string>, v: Value, j: nat)
    requires 1 <= j < |keys|
    ensures GetPath(SetPath(m, keys, v), keys[..j]).Some?
    ensures GetPath(SetPath(m, keys, v), keys[..j]).value.Obj?
    ensures !(GetPath(m, keys[..j]).Some? && GetPath(m, keys[..j]).value.Obj?) ==>
              GetPath(SetPath(m, keys, v), keys[..j]).value.fields.Keys == {keys[j]}
    decreases |keys|
  {
    var m' := SetPath(m, keys, v);
    if j == 1 {
      assert keys[..1] == [keys[0]];
    } else {
      assert keys[..j][1..] == keys[1..][..j - 1];
      assert keys[..j][0] == keys[0];
      SetMakesIntermediateObjects(Child(m, keys[0]), keys[1..], v, j - 1);
      if !(keys[0] in m && m[keys[0]].Obj?) {
        // the walk created `{}` here, so nothing lay below it before
        EmptyHasNoPaths(keys[1..][..j - 1]);
      }
    }
  }

  /** Nothing can be read below an empty object. */
  lemma {:induction false} EmptyHasNoPaths(p: seq<string>)
    requires |p| >= 1
    ensures GetPath(map[], p) == None
  {
  }

  /** updateData on a path: walk down collecting each object visited
      (creating `{}` for falsy steps), then write the leaf and rebuild the
      enclosing objects from the innermost out. */
  method AssignPath(root: Data, keys: seq<string>, v: Value) returns (r: Data)
    requires |keys| >= 1 && Walkable(root, keys)
    ensures r == SetPath(root, keys, v)
  {
    var n := |keys|;
    // frames[i] is the object reached after following keys[..i]
    var frames := [root];
    var i := 0;
    while i < n - 1
      invariant 0 <= i <= n - 1
      invariant |frames| == i + 1 && frames[0] == root
      invariant forall t :: 0 <= t < i ==> frames[t + 1] == Child(frames[t], keys[t])
    {
      frames := frames + [Child(frames[i], keys[i])];
      i := i + 1;
    }
    r := frames[n - 1][keys[n - 1] := v];
    var j := n - 1;
    while j > 0
      invariant 0 <= j <= n - 1
      invariant r == SetPath(frames[j], keys[j..], v)
    {
      assert keys[j - 1..][1..] == keys[j..];
      r := frames[j - 1][keys[j - 1] := Obj(r)];
      j := j - 1;
    }
  }

  /** updateData(key, value): a key with a '.' is a path, any other key is
      set directly; the two agree because a key without '.' splits into
      itself alone. */
  function UpdateData(d: Data, key: string, v: Value): (r: Data)
    requires Walkable(d, Split(key, '.'))
    ensures '.' !in key ==> r == d[key := v]
    ensures GetPath(r, Split(key, '.')) == Some(v)
  {
    SetThenGet(d, Split(key, '.'), v);
    if '.' in key then SetPath(d, Split(key, '.'), v)
    else
      SplitWithoutSeparator(key, '.');
      d[key := v]
  }

  /** A dotted or flat update never removes a key, so the record keeps
      every default key. */
  lemma UpdateKeepsKeys(d: Data, key: string, v: Value)
    requires Walkable(d, Split(key, '.'))
    ensures d.Keys <= UpdateData(d, key, v).Keys
  {
  }

  /** An update whose first path step differs from `k` leaves top-level
      key `k` as it was. */
  lemma UpdateLeavesOtherTopKeys(d: Data, key: string, v: Value, k: string)
    requires Walkable(d, Split(key, '.'))
    requires k != Split(key, '.')[0]
    ensures k in UpdateData(d, key, v) <==> k in d
    ensures k in d ==> UpdateData(d, key, v)[k] == d[k]
  {
    if '.' !in key {
      SplitWithoutSeparator(key, '.');
    }
  }
}
