/** Masking personal data in exported events: by field name anywhere, and by path inside the
    `normalized` block. */
module Masking {
  import opened Options

  datatype Field = Field(key: string, value: Json)

  datatype Json = Scalar(text: string) | Obj(fields: seq<Field>) | Arr(items: seq<Json>)

  /** The two lists, and the lower-casing of keys (any function of the key). */
  datatype Rules = Rules(names: set<string>, paths: set<string>, lower: string -> string)

  const MASK: string := "[PII]"
  const ROOT: string := "normalized"

  function ChildPath(path: string, key: string): string {
    if path == "" then key else path + "." + key
  }

  predicate UnderRoot(path: string) {
    ROOT + "." <= path
  }

  predicate InOcsf(path: string) {
    path == ROOT || UnderRoot(path)
  }

  /** The root of the OCSF paths is not part of them; other paths are compared as they are. */
  function OcsfPath(path: string): string {
    if UnderRoot(path) then path[|ROOT| + 1..] else path
  }

  predicate NameHit(rules: Rules, key: string, path: string, value: Json) {
    rules.lower(key) in rules.names && !(InOcsf(path) && !value.Scalar?)
  }

  predicate PathHit(rules: Rules, path: string) {
    OcsfPath(path) in rules.paths
  }

  predicate Hits(rules: Rules, key: string, path: string, value: Json) {
    NameHit(rules, key, path, value) || PathHit(rules, path)
  }

  function Masked(rules: Rules, obj: Json, force: bool, path: string): Json
    decreases obj
  {
    match obj
    case Scalar(_) => if force then Scalar(MASK) else obj
    case Arr(items) => Arr(seq(|items|, i requires 0 <= i < |items| => Masked(rules, items[i], force, path)))
    case Obj(fields) => Obj(seq(|fields|, i requires 0 <= i < |fields| => MaskedField(rules, fields[i], force, path)))
  }

  function MaskedField(rules: Rules, f: Field, force: bool, path: string): Field
    decreases f
  {
    var child := ChildPath(path, f.key);
    Field(f.key, Masked(rules, f.value, force || Hits(rules, f.key, child, f.value), child))
  }

  method MaskPii(rules: Rules, obj: Json, force: bool, path: string) returns (r: Json)
    ensures r == Masked(rules, obj, force, path)
    decreases obj
  {
    match obj {
      case Scalar(_) =>
        r := if force then Scalar(MASK) else obj;
      case Arr(items) =>
        var out := [];
        for i := 0 to |items|
          invariant |out| == i && forall j :: 0 <= j < i ==> out[j] == Masked(rules, items[j], force, path)
        {
          var item := MaskPii(rules, items[i], force, path);
          out := out + [item];
        }
        r := Arr(out);
      case Obj(fields) =>
        var out := [];
        for i := 0 to |fields|
          invariant |out| == i && forall j :: 0 <= j < i ==> out[j] == MaskedField(rules, fields[j], force, path)
        {
          var key, v := fields[i].key, fields[i].value;
          var child := if path == "" then key else path + "." + key;
          var inOcsf := child == ROOT || ROOT + "." <= child;
          var ocsfPath := if ROOT + "." <= child then child[|ROOT| + 1..] else child;
          var nameHit := rules.lower(key) in rules.names && !(inOcsf && !v.Scalar?);
          var hit := force || nameHit || ocsfPath in rules.paths;
          var value;
          if hit && v.Scalar? {
            value := Scalar(MASK);
          } else {
            value := MaskPii(rules, v, hit, child);
          }
          out := out + [Field(key, value)];
        }
        r := Obj(out);
    }
  }

  // ---- Structure ----

  predicate SameShape(a: Json, b: Json)
    decreases a
  {
    match a
    case Scalar(_) => b.Scalar?
    case Arr(items) => b.Arr? && |b.items| == |items| && forall i :: 0 <= i < |items| ==>
        SameShape(items[i], b.items[i])
    case Obj(fields) =>
      && b.Obj? && |b.fields| == |fields|
      && forall i :: 0 <= i < |fields| ==>
          fields[i].key == b.fields[i].key && SameShape(fields[i].value, b.fields[i].value)
  }

  /** Masking keeps every key, every container and their order. */
  lemma {:induction false} MaskingKeepsShape(rules: Rules, obj: Json, force: bool, path: string)
    ensures SameShape(obj, Masked(rules, obj, force, path))
    decreases obj
  {
    match obj
    case Scalar(_) =>
    case Arr(items) =>
      forall i | 0 <= i < |items| ensures SameShape(items[i], Masked(rules, items[i], force, path)) {
        MaskingKeepsShape(rules, items[i], force, path);
      }
    case Obj(fields) =>
      forall i | 0 <= i < |fields|
        ensures SameShape(fields[i].value, MaskedField(rules, fields[i], force, path).value)
      {
        var child := ChildPath(path, fields[i].key);
        MaskingKeepsShape(rules, fields[i].value, force || Hits(rules, fields[i].key, child, fields[i].value), child);
      }
  }

  /** Masking twice is masking once. */
  lemma {:induction false} MaskingIsIdempotent(rules: Rules, obj: Json, force: bool, path: string)
    ensures Masked(rules, Masked(rules, obj, force, path), force, path) == Masked(rules, obj, force, path)
    decreases obj
  {
    hide Hits;
    var once := Masked(rules, obj, force, path);
    match obj
    case Scalar(_) =>
    case Arr(items) =>
      forall i | 0 <= i < |items| ensures Masked(rules, once.items[i], force, path) == once.items[i] {
        MaskingIsIdempotent(rules, items[i], force, path);
      }
      assert Masked(rules, once, force, path).items == once.items;
    case Obj(fields) =>
      forall i | 0 <= i < |fields| ensures MaskedField(rules, once.fields[i], force, path) == once.fields[i] {
        var f, child := fields[i], ChildPath(path, fields[i].key);
        assert once.fields[i] == MaskedField(rules, f, force, path);
        KeepsKind(rules, f.value, force || Hits(rules, f.key, child, f.value), child);
        SameHits(rules, f.key, child, f.value, once.fields[i].value);
        MaskingIsIdempotent(rules, f.value, force || Hits(rules, f.key, child, f.value), child);
      }
      assert Masked(rules, once, force, path).fields == once.fields;
  }

  lemma KeepsKind(rules: Rules, obj: Json, force: bool, path: string)
    ensures Masked(rules, obj, force, path).Scalar? == obj.Scalar?
  {
  }

  lemma SameHits(rules: Rules, key: string, path: string, a: Json, b: Json)
    requires a.Scalar? == b.Scalar?
    ensures Hits(rules, key, path, a) == Hits(rules, key, path, b)
  {
  }

  // ---- Exactly which scalars ----

  /** A step into a field of an object or an item of a list; a position is a sequence of steps. */
  datatype Step = IntoField(index: nat) | IntoItem(index: nat)

  function Child(obj: Json, step: Step): Option<Json> {
    match step
    case IntoField(i) => if obj.Obj? && i < |obj.fields| then Some(obj.fields[i].value) else None
    case IntoItem(i) => if obj.Arr? && i < |obj.items| then Some(obj.items[i]) else None
  }

  function ValueAt(obj: Json, pos: seq<Step>): Option<Json> {
    if pos == [] then Some(obj)
    else if Child(obj, pos[0]).None? then None
    else ValueAt(Child(obj, pos[0]).value, pos[1..])
  }

  /** The path of the container entered by a step: list items share the path of their list. */
  function StepPath(obj: Json, step: Step, path: string): string {
    if step.IntoField? && Child(obj, step).Some? then ChildPath(path, obj.fields[step.index].key) else path
  }

  datatype Spot = Spot(key: string, path: string, value: Json)

  /** The field entered by the `n`-th step of a position, if that step enters one. */
  function SpotAt(obj: Json, path: string, pos: seq<Step>, n: nat): Option<Spot>
    requires 0 < n <= |pos|
  {
    if Child(obj, pos[0]).None? then None
    else
      var child, childPath := Child(obj, pos[0]).value, StepPath(obj, pos[0], path);
      if n > 1 then SpotAt(child, childPath, pos[1..], n - 1)
      else if pos[0].IntoField? then Some(Spot(obj.fields[pos[0].index].key, childPath, child))
      else None
  }

  predicate SpotHits(rules: Rules, spot: Option<Spot>) {
    spot.Some? && Hits(rules, spot.value.key, spot.value.path, spot.value.value)
  }

  /** The field itself or one that encloses the position is a hit. */
  predicate Covered(rules: Rules, obj: Json, path: string, pos: seq<Step>) {
    exists n :: 0 < n <= |pos| && SpotHits(rules, SpotAt(obj, path, pos, n))
  }

  lemma CoveredStep(rules: Rules, obj: Json, path: string, pos: seq<Step>)
    requires pos != [] && Child(obj, pos[0]).Some?
    ensures Covered(rules, obj, path, pos) <==>
            || SpotHits(rules, SpotAt(obj, path, pos, 1))
            || Covered(rules, Child(obj, pos[0]).value, StepPath(obj, pos[0], path), pos[1..])
  {
    hide Hits;
    var child, childPath := Child(obj, pos[0]).value, StepPath(obj, pos[0], path);
    if n :| 0 < n <= |pos| && SpotHits(rules, SpotAt(obj, path, pos, n)) {
      if n > 1 {
        assert SpotAt(obj, path, pos, n) == SpotAt(child, childPath, pos[1..], n - 1);
      }
    }
    if m :| 0 < m <= |pos[1..]| && SpotHits(rules, SpotAt(child, childPath, pos[1..], m)) {
      assert SpotAt(obj, path, pos, m + 1) == SpotAt(child, childPath, pos[1..], m);
    }
  }

  /** What masking does one step down. */
  lemma MaskedChild(rules: Rules, obj: Json, force: bool, path: string, step: Step)
    requires Child(obj, step).Some?
    ensures Child(Masked(rules, obj, force, path), step)
            == Some(Masked(rules, Child(obj, step).value, force || SpotHits(rules, SpotAt(obj, path, [step], 1)),
                StepPath(obj, step, path)))
  {
    hide Hits;
  }

  /** A scalar is masked if and only if masking is forced or a field on the way to it is a hit;
      otherwise it is left as it is. */
  lemma {:induction false} MaskedIff(rules: Rules, obj: Json, force: bool, path: string, pos: seq<Step>)
    requires ValueAt(obj, pos).Some? && ValueAt(obj, pos).value.Scalar?
    ensures ValueAt(Masked(rules, obj, force, path), pos)
            == Some(if force || Covered(rules, obj, path, pos) then Scalar(MASK) else ValueAt(obj, pos).value)
    decreases |pos|
  {
    hide Hits;
    if pos != [] {
      var child, childPath := Child(obj, pos[0]).value, StepPath(obj, pos[0], path);
      var hit := SpotHits(rules, SpotAt(obj, path, [pos[0]], 1));
      assert SpotAt(obj, path, [pos[0]], 1) == SpotAt(obj, path, pos, 1);
      MaskedIff(rules, child, force || hit, childPath, pos[1..]);
      MaskedChild(rules, obj, force, path, pos[0]);
      CoveredStep(rules, obj, path, pos);
      hide Covered;
      hide Masked;
    }
  }

  /** The path is a listed one, below the root that listed paths leave out. */
  ghost predicate ListedBelowRoot(rules: Rules, path: string) {
    exists p :: p in rules.paths && path == "normalized." + p
  }

  /** Some field on the way is listed by its path below the root. */
  ghost predicate ListedInside(rules: Rules, obj: Json, path: string, pos: seq<Step>) {
    exists n :: 0 < n <= |pos| && SpotAt(obj, path, pos, n).Some?
        && ListedBelowRoot(rules, SpotAt(obj, path, pos, n).value.path)
  }

  /** The last step enters a field with a listed name. */
  predicate Named(rules: Rules, obj: Json, path: string, pos: seq<Step>) {
    pos != [] && SpotAt(obj, path, pos, |pos|).Some?
        && rules.lower(SpotAt(obj, path, pos, |pos|).value.key) in rules.names
  }

  /** A field of a container inside the block is below the root. */
  lemma RootIsInherited(path: string, key: string)
    requires InOcsf(path)
    ensures UnderRoot(ChildPath(path, key))
  {
    assert ChildPath(path, key) == path + "." + key;
    if path == ROOT {
      assert ROOT + "." <= ROOT + "." + key;
    } else {
      assert ROOT + "." <= path <= path + "." + key;
    }
  }

  lemma {:induction false} SpotsInOcsf(obj: Json, path: string, pos: seq<Step>, n: nat)
    requires 0 < n <= |pos| && InOcsf(path) && SpotAt(obj, path, pos, n).Some?
    ensures UnderRoot(SpotAt(obj, path, pos, n).value.path)
    ensures n < |pos| && ValueAt(obj, pos).Some? ==> !SpotAt(obj, path, pos, n).value.value.Scalar?
    ensures n == |pos| ==> ValueAt(obj, pos) == Some(SpotAt(obj, path, pos, n).value.value)
    decreases |pos|
  {
    hide UnderRoot;
    var child, childPath := Child(obj, pos[0]).value, StepPath(obj, pos[0], path);
    if pos[0].IntoField? {
      RootIsInherited(path, obj.fields[pos[0].index].key);
    }
    if n > 1 {
      SpotsInOcsf(child, childPath, pos[1..], n - 1);
    } else if n < |pos| && ValueAt(obj, pos).Some? {
      assert ValueAt(child, pos[1..]).Some? && pos[1..] != [];
    }
  }

  /** A path is a hit if it is listed: below the root for the rest of it, elsewhere for the whole. */
  lemma PathHitIff(rules: Rules, path: string)
    ensures PathHit(rules, path)
        <==> if "normalized." <= path then ListedBelowRoot(rules, path) else path in rules.paths
  {
    var prefix := "normalized.";
    assert ROOT + "." == prefix;
    if prefix <= path {
      assert path == prefix + path[|prefix|..];
      forall p | path == prefix + p ensures p == path[|prefix|..] {}
    }
  }

  /** Inside `normalized` a listed name masks only the scalar it names: a container is masked by its
      path alone, below the root, so the unlisted leaves under a listed name survive. */
  lemma InsideNormalized(rules: Rules, obj: Json, path: string, pos: seq<Step>)
    requires path == "normalized" || "normalized." <= path
    requires ValueAt(obj, pos).Some? && ValueAt(obj, pos).value.Scalar?
    ensures ValueAt(Masked(rules, obj, false, path), pos)
            == Some(if ListedInside(rules, obj, path, pos) || Named(rules, obj, path, pos) then Scalar("[PII]")
                else ValueAt(obj, pos).value)
  {
    MaskedIff(rules, obj, false, path, pos);
    hide Masked;
    assert ROOT + "." == "normalized.";
    forall n | 0 < n <= |pos| && SpotAt(obj, path, pos, n).Some?
      ensures InOcsf(SpotAt(obj, path, pos, n).value.path)
      ensures PathHit(rules, SpotAt(obj, path, pos, n).value.path)
          <==> ListedBelowRoot(rules, SpotAt(obj, path, pos, n).value.path)
      ensures SpotAt(obj, path, pos, n).value.value.Scalar? <==> n == |pos|
    {
      SpotsInOcsf(obj, path, pos, n);
      PathHitIff(rules, SpotAt(obj, path, pos, n).value.path);
    }
    hide InOcsf;
    hide PathHit;
    hide ListedBelowRoot;
    hide SpotAt;
  }

  /** Every field on the way lies outside `normalized`. */
  predicate Outside(obj: Json, path: string, pos: seq<Step>) {
    forall n | 0 < n <= |pos| && SpotAt(obj, path, pos, n).Some? :: !InOcsf(SpotAt(obj, path, pos, n).value.path)
  }

  /** Some field on the way has a listed name. */
  predicate NameCovered(rules: Rules, obj: Json, path: string, pos: seq<Step>) {
    exists n :: 0 < n <= |pos| && SpotAt(obj, path, pos, n).Some?
        && rules.lower(SpotAt(obj, path, pos, n).value.key) in rules.names
  }

  /** Some field on the way is listed by its path from the root of the event. */
  predicate Listed(rules: Rules, obj: Json, path: string, pos: seq<Step>) {
    exists n :: 0 < n <= |pos| && SpotAt(obj, path, pos, n).Some? && SpotAt(obj, path, pos, n).value.path in rules.paths
  }

  lemma OutsideHits(rules: Rules, spot: Spot)
    requires !InOcsf(spot.path)
    ensures Hits(rules, spot.key, spot.path, spot.value)
        <==> rules.lower(spot.key) in rules.names || spot.path in rules.paths
  {
  }

  /** Outside `normalized` a scalar is masked if and only if its field or an enclosing one has a listed
      name or a listed path: containers go by name as well, and the path list applies there too. */
  lemma OutsideNormalized(rules: Rules, obj: Json, path: string, pos: seq<Step>)
    requires Outside(obj, path, pos) && ValueAt(obj, pos).Some? && ValueAt(obj, pos).value.Scalar?
    ensures ValueAt(Masked(rules, obj, false, path), pos)
            == Some(if NameCovered(rules, obj, path, pos) || Listed(rules, obj, path, pos) then Scalar(MASK)
                    else ValueAt(obj, pos).value)
  {
    MaskedIff(rules, obj, false, path, pos);
    hide Masked;
    forall n | 0 < n <= |pos| && SpotAt(obj, path, pos, n).Some?
      ensures var spot := SpotAt(obj, path, pos, n).value;
              && (Hits(rules, spot.key, spot.path, spot.value) <==>
                    rules.lower(spot.key) in rules.names || spot.path in rules.paths)
    {
      OutsideHits(rules, SpotAt(obj, path, pos, n).value);
    }
    hide Hits;
    hide SpotAt;
  }

  /** So the path list is without effect outside `normalized` exactly where no path is listed, unless a
      name or the value itself makes the mask. */
  lemma PathsMatterOutside(rules: Rules, obj: Json, path: string, pos: seq<Step>)
    requires Outside(obj, path, pos) && ValueAt(obj, pos).Some? && ValueAt(obj, pos).value.Scalar?
    ensures ValueAt(Masked(rules, obj, false, path), pos) == ValueAt(Masked(rules.(paths := {}), obj, false, path), pos)
            <==> || !Listed(rules, obj, path, pos) || NameCovered(rules, obj, path, pos)
                 || ValueAt(obj, pos).value == Scalar(MASK)
  {
    OutsideNormalized(rules, obj, path, pos);
    OutsideNormalized(rules.(paths := {}), obj, path, pos);
    hide Masked;
    hide SpotAt;
    assert NameCovered(rules.(paths := {}), obj, path, pos) == NameCovered(rules, obj, path, pos);
  }

  /** An event whose field outside `normalized` is masked for its path alone. */
  lemma PathsHitOutsideNormalized(rules: Rules, key: string, child: string, text: string)
    requires key != "" && !InOcsf(key) && !UnderRoot(key + "." + child) && key + "." + child in rules.paths
    ensures Masked(rules, Obj([Field(key, Obj([Field(child, Scalar(text))]))]), false, "")
            == Obj([Field(key, Obj([Field(child, Scalar(MASK))]))])
  {
    var inner := Field(child, Scalar(text));
    var path := ChildPath(key, child);
    assert OcsfPath(path) == path;
    var force := Hits(rules, key, key, Obj([inner]));
    assert MaskedField(rules, inner, force, key) == Field(child, Scalar(MASK));
    assert Masked(rules, Obj([inner]), force, key).fields == [Field(child, Scalar(MASK))];
    var outer := Field(key, Obj([inner]));
    assert MaskedField(rules, outer, false, "") == Field(key, Obj([Field(child, Scalar(MASK))]));
    assert Masked(rules, Obj([outer]), false, "").fields == [Field(key, Obj([Field(child, Scalar(MASK))]))];
  }

  // ---- A whole event ----

  /** The keys of the fields entered by the first `n` steps. */
  function KeysOn(obj: Json, pos: seq<Step>, n: nat): seq<string>
    requires n <= |pos|
  {
    if n == 0 || Child(obj, pos[0]).None? then []
    else
      (if pos[0].IntoField? then [obj.fields[pos[0].index].key] else [])
      + KeysOn(Child(obj, pos[0]).value, pos[1..], n - 1)
  }

  function Dotted(keys: seq<string>): string {
    if keys == [] then "" else if |keys| == 1 then keys[0] else keys[0] + "." + Dotted(keys[1..])
  }

  /** The keys with dots between them, but for empty keys at the very start. */
  function PathOf(keys: seq<string>): string {
    if keys != [] && keys[0] == "" then PathOf(keys[1..]) else Dotted(keys)
  }

  lemma {:induction false} DottedSnoc(keys: seq<string>, key: string)
    requires keys != []
    ensures Dotted(keys + [key]) == Dotted(keys) + "." + key
  {
    assert (keys + [key])[1..] == keys[1..] + [key];
    if |keys| > 1 {
      DottedSnoc(keys[1..], key);
      assert keys[0] + "." + (Dotted(keys[1..]) + "." + key) == keys[0] + "." + Dotted(keys[1..]) + "." + key;
    } else {
      assert [key] == keys[1..] + [key];
    }
  }

  lemma {:induction false} PathSnoc(keys: seq<string>, key: string)
    ensures PathOf(keys + [key]) == ChildPath(PathOf(keys), key)
  {
    if keys == [] {
      assert [] + [key] == [key] && [key][1..] == [];
    } else if keys[0] == "" {
      assert (keys + [key])[1..] == keys[1..] + [key];
      PathSnoc(keys[1..], key);
    } else {
      DottedSnoc(keys, key);
    }
  }

  /** The field a step enters: its key, the path its keys spell, and whether it is the scalar itself. */
  lemma {:induction false} SpotIs(obj: Json, above: seq<string>, pos: seq<Step>, n: nat)
    requires 0 < n <= |pos| && ValueAt(obj, pos).Some? && ValueAt(obj, pos).value.Scalar?
    ensures var keys, spot := KeysOn(obj, pos, n), SpotAt(obj, PathOf(above), pos, n);
            && (spot.Some? <==> pos[n - 1].IntoField?)
            && (spot.Some? ==> keys != [] && spot.value.key == keys[|keys| - 1]
                               && spot.value.path == PathOf(above + keys)
                               && (spot.value.value.Scalar? <==> n == |pos|))
    decreases n
  {
    var child, first := Child(obj, pos[0]).value, KeysOn(obj, pos, 1);
    assert KeysOn(child, pos[1..], 0) == [];
    if first != [] {
      PathSnoc(above, first[0]);
      assert first == [first[0]];
    }
    assert above + [] == above;
    assert StepPath(obj, pos[0], PathOf(above)) == PathOf(above + first);
    hide PathOf;
    if n > 1 {
      SpotIs(child, above + first, pos[1..], n - 1);
      assert KeysOn(obj, pos, n) == first + KeysOn(child, pos[1..], n - 1);
      assert above + KeysOn(obj, pos, n) == above + first + KeysOn(child, pos[1..], n - 1);
    } else if n < |pos| {
      assert ValueAt(child, pos[1..]).Some? && pos[1..] != [];
    } else {
      assert ValueAt(child, pos[1..]) == Some(child);
    }
  }

  /** The `n`-th step enters a field that the two lists select: by its name, unless it is a container inside
      `normalized`; or by its path, which leaves `normalized.` out. */
  ghost predicate Selected(rules: Rules, obj: Json, pos: seq<Step>, n: nat)
    requires 0 < n <= |pos|
  {
    var keys := KeysOn(obj, pos, n);
    var path := PathOf(keys);
    var inside := path == "normalized" || "normalized." <= path;
    && pos[n - 1].IntoField? && keys != []
    && (|| (rules.lower(keys[|keys| - 1]) in rules.names && (inside ==> n == |pos|))
        || (if "normalized." <= path then ListedBelowRoot(rules, path) else path in rules.paths))
  }

  lemma SelectedIff(rules: Rules, obj: Json, pos: seq<Step>, n: nat)
    requires 0 < n <= |pos| && ValueAt(obj, pos).Some? && ValueAt(obj, pos).value.Scalar?
    ensures SpotHits(rules, SpotAt(obj, "", pos, n)) <==> Selected(rules, obj, pos, n)
  {
    SpotIs(obj, [], pos, n);
    var keys := KeysOn(obj, pos, n);
    assert [] + keys == keys && PathOf([]) == "";
    PathHitIff(rules, PathOf(keys));
    assert ROOT + "." == "normalized.";
    hide ListedBelowRoot;
    hide PathHit;
    hide SpotAt;
    hide KeysOn;
    hide PathOf;
  }

  /** A scalar of an event is replaced by the mask if and only if the lists select its field or one that
      encloses it; every other scalar is exported as it is. */
  lemma MaskedExactly(rules: Rules, event: Json, pos: seq<Step>)
    requires ValueAt(event, pos).Some? && ValueAt(event, pos).value.Scalar?
    ensures ValueAt(Masked(rules, event, false, ""), pos)
            == Some(if exists n :: 0 < n <= |pos| && Selected(rules, event, pos, n) then Scalar("[PII]")
                    else ValueAt(event, pos).value)
  {
    MaskedIff(rules, event, false, "", pos);
    forall n | 0 < n <= |pos|
      ensures SpotHits(rules, SpotAt(event, "", pos, n)) <==> Selected(rules, event, pos, n)
    {
      SelectedIff(rules, event, pos, n);
    }
    hide Masked;
    hide SpotHits;
    hide Selected;
  }

  /** An event inside the block: the leaf whose path is listed is masked, its neighbour is not. */
  lemma PathsHitInsideNormalized(lower: string -> string, x: string, y: string)
    ensures var rules := Rules({}, {"user.name"}, lower);
            Masked(rules, Obj([Field("normalized", Obj([Field("user", Obj([Field("name", Scalar(x)),
                                                                           Field("uid", Scalar(y))]))]))]), false, "")
            == Obj([Field("normalized", Obj([Field("user", Obj([Field("name", Scalar("[PII]")),
                                                                Field("uid", Scalar(y))]))]))])
  {
    var rules := Rules({}, {"user.name"}, lower);
    var name, uid := Field("name", Scalar(x)), Field("uid", Scalar(y));
    var user := Field("user", Obj([name, uid]));
    var root := Field("normalized", Obj([user]));
    assert ROOT + "." == "normalized." && |ROOT| == 10;
    assert "normalized.user.name" == "normalized." + "user.name";
    assert "normalized.user.uid" == "normalized." + "user.uid" && "user.uid"[5] != "user.name"[5];
    assert "normalized.user" == "normalized." + "user" && |"user"| != |"user.name"|;
    assert |"normalized"| != |"user.name"| && !("normalized." <= "normalized");
    assert ChildPath("normalized", "user") == "normalized.user";
    assert ChildPath("normalized.user", "name") == "normalized.user.name";
    assert ChildPath("normalized.user", "uid") == "normalized.user.uid";
    assert MaskedField(rules, name, false, "normalized.user") == Field("name", Scalar(MASK));
    assert MaskedField(rules, uid, false, "normalized.user") == uid;
    assert Masked(rules, user.value, false, "normalized.user").fields == [Field("name", Scalar(MASK)), uid];
    var masked := Field("user", Obj([Field("name", Scalar(MASK)), uid]));
    assert MaskedField(rules, user, false, "normalized") == masked;
    assert Masked(rules, root.value, false, "normalized").fields == [masked];
    assert MaskedField(rules, root, false, "") == Field("normalized", Obj([masked]));
    assert Masked(rules, Obj([root]), false, "").fields == [Field("normalized", Obj([masked]))];
  }
}
