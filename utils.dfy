/** `lookup(root, fields)` of lib/utils.js: find the first field name, among one or several
    candidates, whose bracket chain leads through `root` to a non-object value. */
module Utils {
  import opened Wrappers
  import opened JsValue

  /** The `fields` argument: one field name, or an ordered list of names tried in turn. */
  datatype Fields = Name(name: string) | Names(names: seq<string>)

  /** The candidate names in the order they are tried; a single name is its own one-element
      list (`fields = [fields]`). */
  function Candidates(fields: Fields): (names: seq<string>)
    ensures fields.Name? ==> names == [fields.name]
    ensures fields.Names? ==> names == fields.names
  {
    match fields
    case Name(n) => [n]
    case Names(ns) => ns
  }

  /* ---------------------------------------------------------------------------------------
     Key chains: `field.split(']').join('').split('[')`
     --------------------------------------------------------------------------------------- */

  /** `s.split(sep)` for a one-character separator: the pieces between the separators, empty
      pieces included, so a string with n separators has n + 1 pieces. */
  function Split(s: string, sep: char): (pieces: seq<string>)
    ensures |pieces| >= 1
    ensures forall i :: 0 <= i < |pieces| ==> sep !in pieces[i]
  {
    if s == [] then [""]
    else
      var rest := Split(s[1..], sep);
      if s[0] == sep then [""] + rest
      else [[s[0]] + rest[0]] + rest[1..]
  }

  /** `parts.join(sep)` */
  function Join(parts: seq<string>, sep: string): (r: string)
    ensures |parts| >= 1 ==> parts[0] <= r
    ensures forall x :: x in r ==> x in sep || exists i :: 0 <= i < |parts| && x in parts[i]
  {
    if |parts| == 0 then ""
    else if |parts| == 1 then parts[0]
    else parts[0] + sep + Join(parts[1..], sep)
  }

  /** `s` with every occurrence of `c` taken out, the other characters kept in order. */
  function Strip(s: string, c: char): (r: string)
    ensures c !in r
    ensures forall x :: x in r ==> x in s
  {
    if s == [] then ""
    else (if s[0] == c then "" else [s[0]]) + Strip(s[1..], c)
  }

  /** The key chain of a field name: every `]` removed, then split on `[`. */
  function Chain(field: string): (keys: seq<string>)
    ensures |keys| >= 1
  {
    Split(Join(Split(field, ']'), ""), '[')
  }

  /** The bracket notation of a key chain, `k0[k1][k2]...`. */
  function Path(keys: seq<string>): string
    requires |keys| >= 1
  {
    keys[0] + Brackets(keys[1..])
  }

  /** `[k1][k2]...` */
  function Brackets(keys: seq<string>): string {
    if keys == [] then "" else "[" + keys[0] + "]" + Brackets(keys[1..])
  }

  /** A name without brackets. */
  predicate PlainName(s: string) {
    '[' !in s && ']' !in s
  }

  /** True when no key contains a bracket. */
  predicate BracketFree(keys: seq<string>) {
    forall i :: 0 <= i < |keys| ==> PlainName(keys[i])
  }

  /** Splitting and joining with the same separator gives back the string. */
  lemma {:induction false} SplitThenJoin(s: string, c: char)
    ensures Join(Split(s, c), [c]) == s
  {
    if s != [] {
      SplitThenJoin(s[1..], c);
      var rest := Split(s[1..], c);
      if s[0] == c {
        assert Split(s, c) == [""] + rest;
        assert Join([""] + rest, [c]) == [c] + Join(rest, [c]) by {
          assert ([""] + rest)[1..] == rest;
        }
        assert s == [s[0]] + s[1..];
      } else {
        JoinConsChar(s[0], rest, [c]);
        assert s == [s[0]] + s[1..];
      }
    }
  }

  /** Prepending a character to the first part prepends it to the joined string. */
  lemma JoinConsChar(x: char, parts: seq<string>, sep: string)
    requires |parts| >= 1
    ensures Join([[x] + parts[0]] + parts[1..], sep) == [x] + Join(parts, sep)
  {
    var q := [[x] + parts[0]] + parts[1..];
    assert q[1..] == parts[1..];
  }

  /** Joining pieces free of the separator and splitting again gives back the pieces. */
  lemma {:induction false} JoinThenSplit(parts: seq<string>, c: char)
    requires |parts| >= 1
    requires forall i :: 0 <= i < |parts| ==> c !in parts[i]
    ensures Split(Join(parts, [c]), c) == parts
  {
    if |parts| == 1 {
      SplitWithout(parts[0], c);
    } else {
      JoinThenSplit(parts[1..], c);
      var tail := Join(parts[1..], [c]);
      SplitPrefix(parts[0], [c] + tail, c);
      assert parts[0] + [c] + tail == parts[0] + ([c] + tail);
      assert ([c] + tail)[0] == c && ([c] + tail)[1..] == tail;
      assert Split([c] + tail, c) == [""] + parts[1..];
      assert ([""] + parts[1..])[1..] == parts[1..];
      assert parts[0] + "" == parts[0];
      assert [parts[0]] + parts[1..] == parts;
    }
  }

  /** A string without the separator splits into itself alone. */
  lemma {:induction false} SplitWithout(a: string, c: char)
    requires c !in a
    ensures Split(a, c) == [a]
  {
    if a != [] {
      SplitWithout(a[1..], c);
      assert [a[0]] + a[1..] == a;
    }
  }

  /** A separator-free prefix joins onto the first piece of what follows. */
  lemma {:induction false} SplitPrefix(a: string, t: string, c: char)
    requires c !in a
    ensures Split(a + t, c) == [a + Split(t, c)[0]] + Split(t, c)[1..]
  {
    if a != [] {
      SplitPrefix(a[1..], t, c);
      var st := Split(t, c);
      var r := Split(a[1..] + t, c);
      assert (a + t)[1..] == a[1..] + t;
      assert (a + t)[0] == a[0];
      assert r[0] == a[1..] + st[0] && r[1..] == st[1..];
      assert [a[0]] + (a[1..] + st[0]) == a + st[0];
    } else {
      assert a + t == t;
      assert a + Split(t, c)[0] == Split(t, c)[0];
    }
  }

  /** `s.split(c).join('')` removes every `c` and keeps the rest in order. */
  lemma {:induction false} SplitThenJoinEmpty(s: string, c: char)
    ensures Join(Split(s, c), "") == Strip(s, c)
  {
    if s != [] {
      SplitThenJoinEmpty(s[1..], c);
      var rest := Split(s[1..], c);
      if s[0] == c {
        assert ([""] + rest)[1..] == rest;
        if |rest| > 1 {
          assert Join([""] + rest, "") == "" + "" + Join(rest, "");
        }
      } else {
        JoinConsChar(s[0], rest, "");
      }
    }
  }

  /** Stripping distributes over concatenation. */
  lemma {:induction false} StripAppend(a: string, b: string, c: char)
    ensures Strip(a + b, c) == Strip(a, c) + Strip(b, c)
  {
    if a != [] {
      StripAppend(a[1..], b, c);
      assert (a + b)[1..] == a[1..] + b;
    } else {
      assert a + b == b;
    }
  }

  /** The keys of a chain hold no brackets; joined with `[` they give the field name with
      its `]` removed. So a chain is exactly the name's `[`-separated runs. */
  lemma ChainKeys(field: string)
    ensures BracketFree(Chain(field))
    ensures Join(Chain(field), "[") == Strip(field, ']')
  {
    var t := Join(Split(field, ']'), "");
    SplitThenJoinEmpty(field, ']');
    SplitThenJoin(t, '[');
    var keys := Chain(field);
    forall i | 0 <= i < |keys| ensures ']' !in keys[i] {
      SplitChars(t, '[', i);
    }
  }

  /** Every character of a piece comes from the string that was split. */
  lemma {:induction false} SplitChars(s: string, sep: char, i: nat)
    requires i < |Split(s, sep)|
    ensures forall x :: x in Split(s, sep)[i] ==> x in s
  {
    if s != [] {
      var rest := Split(s[1..], sep);
      if s[0] == sep {
        if i > 0 { SplitChars(s[1..], sep, i - 1); }
      } else if i == 0 {
        SplitChars(s[1..], sep, 0);
      } else {
        SplitChars(s[1..], sep, i);
      }
    }
  }

  /** A name without brackets is a one-key chain. */
  lemma ChainOfPlainName(field: string)
    requires PlainName(field)
    ensures Chain(field) == [field]
  {
    SplitWithout(field, ']');
    SplitWithout(field, '[');
  }

  /** Parsing the bracket notation of bracket-free keys gives back the keys. */
  lemma ChainOfPath(keys: seq<string>)
    requires |keys| >= 1 && BracketFree(keys)
    ensures Chain(Path(keys)) == keys
  {
    var p := Path(keys);
    SplitThenJoinEmpty(p, ']');
    StripAppend(keys[0], Brackets(keys[1..]), ']');
    StripKey(keys[0]);
    StripBrackets(keys[1..]);
    JoinHead(keys);
    JoinThenSplit(keys, '[');
  }

  /** A key without `]` is unchanged by stripping `]`. */
  lemma {:induction false} StripKey(k: string)
    requires ']' !in k
    ensures Strip(k, ']') == k
  {
    if k != [] {
      StripKey(k[1..]);
      assert [k[0]] + k[1..] == k;
    }
  }

  /** `[k1][k2]...` with the `]` removed is `[k1[k2...`. */
  lemma {:induction false} StripBrackets(keys: seq<string>)
    requires BracketFree(keys)
    ensures Strip(Brackets(keys), ']') == JoinTail(keys)
  {
    if keys != [] {
      var k := keys[0];
      assert BracketFree(keys[1..]) by {
        forall i | 0 <= i < |keys[1..]| ensures PlainName(keys[1..][i]) {
          assert keys[1..][i] == keys[i + 1];
        }
      }
      StripBrackets(keys[1..]);
      StripAppend("[" + k + "]", Brackets(keys[1..]), ']');
      StripBracketedKey(k);
    }
  }

  /** `[k]` with the `]` removed is `[k`. */
  lemma StripBracketedKey(k: string)
    requires ']' !in k
    ensures Strip("[" + k + "]", ']') == "[" + k
  {
    StripAppend("[" + k, "]", ']');
    StripAppend("[", k, ']');
    StripKey(k);
    assert Strip("]", ']') == "";
    assert Strip("[", ']') == "[";
  }

  /** `[k1[k2...`: each key preceded by `[`. */
  function JoinTail(keys: seq<string>): string {
    if keys == [] then "" else "[" + keys[0] + JoinTail(keys[1..])
  }

  /** Joining with `[` puts the first key before the `[`-prefixed rest. */
  lemma {:induction false} JoinHead(keys: seq<string>)
    requires |keys| >= 1
    ensures Join(keys, "[") == keys[0] + JoinTail(keys[1..])
  {
    if |keys| > 1 {
      JoinHead(keys[1..]);
      assert keys[1..][0] == keys[1] && keys[1..][1..] == keys[2..];
    }
  }

  /** The chain of the bracket names used for nested form fields, `user[username]`. */
  lemma ChainOfNestedFormField()
    ensures Chain("user[username]") == ["user", "username"]
  {
    var keys := ["user", "username"];
    assert BracketFree(keys);
    assert Path(keys) == "user[username]";
    ChainOfPath(keys);
  }

  /* ---------------------------------------------------------------------------------------
     Walking one chain, trying the candidates in order
     --------------------------------------------------------------------------------------- */

  /** The inner loop of `lookup` for one chain: descend key by key and stop at the first
      value that is not an object. `None` when a step reads `null` / `undefined` or when the
      chain ends on an object: the field is then abandoned. */
  function Walk(obj: Value, chain: seq<string>): (r: Option<Value>)
    ensures r.Some? ==> IsScalar(r.value)
  {
    if chain == [] then None
    else
      var prop := Get(obj, chain[0]);
      if IsNullish(prop) then None
      else if !IsObject(prop) then Some(prop)
      else Walk(prop, chain[1..])
  }

  /** Strict descent: the value reached by reading every key of `keys` in turn, with no
      early stop (reading through a non-object gives `undefined`). */
  function Descend(obj: Value, keys: seq<string>): Value
    decreases |keys|
  {
    if keys == [] then obj else Descend(Get(obj, keys[0]), keys[1..])
  }

  /** The outer loop of `lookup`: the value of the first candidate whose chain resolves, or
      `null` when none does. */
  function Resolve(root: Value, names: seq<string>): (r: Value)
    ensures r.Null? || IsScalar(r)
  {
    if names == [] then Null
    else
      match Walk(root, Chain(names[0]))
      case Some(v) => v
      case None => Resolve(root, names[1..])
  }

  /** What `lookup(root, fields)` returns. */
  function FieldValue(root: Value, fields: Fields): (r: Value)
    ensures !Truthy(root) ==> r == Null
    ensures r.Null? || IsScalar(r)
  {
    if !Truthy(root) then Null else Resolve(root, Candidates(fields))
  }

  /** lib/utils.js `lookup`: the outer loop over the candidate names. */
  method Lookup(root: Value, fields: Fields) returns (r: Value)
    ensures r == FieldValue(root, fields)
  {
    if !Truthy(root) {
      return Null;
    }
    var names := Candidates(fields);
    var i := 0;
    while i < |names|
      invariant 0 <= i <= |names|
      invariant Resolve(root, names[i..]) == Resolve(root, names)
    {
      var found := WalkChain(root, Chain(names[i]));
      ResolveStep(root, names, i);
      if found.Some? {
        return found.value;
      }
      i := i + 1;
    }
    return Null;
  }

  /** The inner loop of `lookup`: follow `chain` from `obj`, giving up on a nullish
      property and returning the first property that is not an object. */
  method WalkChain(obj: Value, chain: seq<string>) returns (r: Option<Value>)
    ensures r == Walk(obj, chain)
  {
    var cur := obj;
    var j := 0;
    while j < |chain|
      invariant 0 <= j <= |chain|
      invariant Walk(cur, chain[j..]) == Walk(obj, chain)
    {
      var prop := Get(cur, chain[j]);
      WalkStep(cur, chain, j);
      if prop.Null? || prop.Undefined? {
        return None;
      }
      if !prop.Obj? {
        return Some(prop);
      }
      cur := prop;
      j := j + 1;
    }
    return None;
  }

  /** One step of the inner loop: read the `j`-th key, then stop or descend. */
  lemma WalkStep(obj: Value, chain: seq<string>, j: nat)
    requires j < |chain|
    ensures Walk(obj, chain[j..]) ==
              var prop := Get(obj, chain[j]);
              if IsNullish(prop) then None
              else if !IsObject(prop) then Some(prop)
              else Walk(prop, chain[j + 1..])
  {
  }

  /** One step of the outer loop: the candidates from `i` on are the `i`-th, then the rest. */
  lemma ResolveStep(root: Value, names: seq<string>, i: nat)
    requires i < |names|
    ensures Resolve(root, names[i..]) ==
              match Walk(root, Chain(names[i]))
              case Some(v) => v
              case None => Resolve(root, names[i + 1..])
  {
  }

  /* ---------------------------------------------------------------------------------------
     Properties of lookup
     --------------------------------------------------------------------------------------- */

  /** A single field name behaves exactly as the one-element list holding it. */
  lemma SingleNameIsOneElementList(root: Value, name: string)
    ensures FieldValue(root, Name(name)) == FieldValue(root, Names([name]))
  {
  }

  /** Once a chain has met a non-object value, the keys after it are never read. */
  lemma {:induction false} WalkStopsAtScalar(obj: Value, chain: seq<string>, rest: seq<string>)
    requires Walk(obj, chain).Some?
    ensures Walk(obj, chain + rest) == Walk(obj, chain)
  {
    var prop := Get(obj, chain[0]);
    assert (chain + rest)[0] == chain[0];
    if IsObject(prop) {
      assert (chain + rest)[1..] == chain[1..] + rest;
      WalkStopsAtScalar(prop, chain[1..], rest);
    }
  }

  /** A chain along which every value read is an object yields nothing. */
  lemma {:induction false} WalkThroughObjects(obj: Value, chain: seq<string>)
    requires forall k :: 0 < k <= |chain| ==> Descend(obj, chain[..k]).Obj?
    ensures Walk(obj, chain) == None
  {
    if chain != [] {
      var prop := Get(obj, chain[0]);
      DescendPrefix(obj, chain, 1);
      forall k | 0 < k <= |chain[1..]| ensures Descend(prop, chain[1..][..k]).Obj? {
        DescendPrefix(obj, chain, k + 1);
      }
      WalkThroughObjects(prop, chain[1..]);
    }
  }

  /** Descending along a non-empty prefix is one read followed by the rest of the prefix. */
  lemma DescendPrefix(obj: Value, chain: seq<string>, k: nat)
    requires 0 < k <= |chain|
    ensures Descend(obj, chain[..k]) == Descend(Get(obj, chain[0]), chain[1..][..k - 1])
  {
    assert chain[..k][0] == chain[0];
    assert chain[..k][1..] == chain[1..][..k - 1];
  }

  /** A step that reads `null` or `undefined` abandons the chain. */
  lemma {:induction false} WalkAbandonsAtNullish(obj: Value, chain: seq<string>, k: nat)
    requires 0 < k <= |chain| && IsNullish(Descend(obj, chain[..k]))
    requires forall j :: 0 < j < k ==> Descend(obj, chain[..j]).Obj?
    ensures Walk(obj, chain) == None
  {
    var prop := Get(obj, chain[0]);
    DescendPrefix(obj, chain, k);
    if k > 1 {
      DescendPrefix(obj, chain, 1);
      forall j | 0 < j < k - 1 ensures Descend(prop, chain[1..][..j]).Obj? {
        DescendPrefix(obj, chain, j + 1);
      }
      WalkAbandonsAtNullish(prop, chain[1..], k - 1);
    }
  }

  /** The value a chain yields is the strict descent to its first non-object step: the first
      `k` keys lead through objects to the value, which is a scalar. */
  lemma {:induction false} WalkIsFirstScalar(obj: Value, chain: seq<string>, k: nat)
    requires 0 < k <= |chain| && IsScalar(Descend(obj, chain[..k]))
    requires forall j :: 0 < j < k ==> Descend(obj, chain[..j]).Obj?
    ensures Walk(obj, chain) == Some(Descend(obj, chain[..k]))
  {
    var prop := Get(obj, chain[0]);
    DescendPrefix(obj, chain, k);
    if k > 1 {
      DescendPrefix(obj, chain, 1);
      forall j | 0 < j < k - 1 ensures Descend(prop, chain[1..][..j]).Obj? {
        DescendPrefix(obj, chain, j + 1);
      }
      WalkIsFirstScalar(prop, chain[1..], k - 1);
    }
  }

  /** Trying the candidates `a + b`: the first list wins when one of its names resolves,
      otherwise the second list is tried. */
  lemma {:induction false} ResolveAppend(root: Value, a: seq<string>, b: seq<string>)
    ensures Resolve(root, a + b) == if Resolve(root, a).Null? then Resolve(root, b) else Resolve(root, a)
  {
    if a == [] {
      assert a + b == b;
    } else {
      assert (a + b)[0] == a[0] && (a + b)[1..] == a[1..] + b;
      ResolveAppend(root, a[1..], b);
    }
  }

  /** The result is `null` exactly when no candidate's chain resolves. */
  lemma {:induction false} ResolveNull(root: Value, names: seq<string>)
    ensures Resolve(root, names).Null? <==> forall i :: 0 <= i < |names| ==> Walk(root, Chain(names[i])).None?
  {
    if names != [] {
      ResolveNull(root, names[1..]);
      forall i | 0 < i < |names| ensures names[i] == names[1..][i - 1] { }
    }
  }

  /** The result is the value of the earliest candidate that resolves. */
  lemma {:induction false} ResolveFirst(root: Value, names: seq<string>, i: nat)
    requires i < |names| && Walk(root, Chain(names[i])).Some?
    requires forall j :: 0 <= j < i ==> Walk(root, Chain(names[j])).None?
    ensures Resolve(root, names) == Walk(root, Chain(names[i])).value
  {
    if i > 0 {
      assert names[1..][i - 1] == names[i];
      forall j | 0 <= j < i - 1 ensures Walk(root, Chain(names[1..][j])).None? {
        assert names[1..][j] == names[j + 1];
      }
      ResolveFirst(root, names[1..], i - 1);
    }
  }

  /** A non-null result comes from some candidate, and every earlier candidate failed. */
  lemma ResolveHasWitness(root: Value, names: seq<string>)
    requires !Resolve(root, names).Null?
    ensures exists i :: 0 <= i < |names| && Walk(root, Chain(names[i])) == Some(Resolve(root, names)) &&
                        (forall j :: 0 <= j < i ==> Walk(root, Chain(names[j])).None?)
  {
    var i := FirstResolving(root, names);
    assert Walk(root, Chain(names[i])) == Some(Resolve(root, names));
  }

  /** The position of the candidate that `Resolve` takes its value from. */
  function FirstResolving(root: Value, names: seq<string>): (i: nat)
    requires !Resolve(root, names).Null?
    ensures i < |names| && Walk(root, Chain(names[i])) == Some(Resolve(root, names))
    ensures forall j :: 0 <= j < i ==> Walk(root, Chain(names[j])).None?
  {
    if Walk(root, Chain(names[0])).Some? then 0
    else
      var k := FirstResolving(root, names[1..]);
      assert forall j :: 0 < j <= k ==> names[j] == names[1..][j - 1];
      k + 1
  }

  /** A field written in bracket notation, `k0[k1]...`, finds the value at the end of its
      keys when every value before it is an object: `user[username]` reads `body.user.username`. */
  lemma PathLookup(root: Value, keys: seq<string>)
    requires Truthy(root) && |keys| >= 1 && BracketFree(keys)
    requires IsScalar(Descend(root, keys))
    requires forall j :: 0 < j < |keys| ==> Descend(root, keys[..j]).Obj?
    ensures FieldValue(root, Name(Path(keys))) == Descend(root, keys)
  {
    ChainOfPath(keys);
    assert keys[..|keys|] == keys;
    WalkIsFirstScalar(root, keys, |keys|);
  }

  /** An object found under a plain name is not a value: the field yields `null`, so
      `{username: {object: 1}}` gives no username. */
  lemma CompositeFieldIsNull(root: Value, name: string)
    requires PlainName(name) && Get(root, name).Obj?
    ensures FieldValue(root, Name(name)) == Null
  {
    ChainOfPlainName(name);
    assert [name][0] == name && [name][1..] == [];
    assert Walk(root, [name]) == None;
    assert Resolve(root, [name]) == Null;
  }
}
