/**
 * src/middleware/n8n_middleware.py: before a tool runs, the middleware deletes
 * the four parameters n8n adds on its own from the call's argument dict, in
 * place, and hands the same context on to the next handler.
 */
module N8nMiddleware {
  import opened Wrappers
  import opened Strings
  import opened Json

  /** The parameters n8n adds that no tool declares. */
  const ExtraKeys: set<string> := {"sessionId", "action", "chatInput", "toolCallId"}

  /** `s` with every occurrence of `x` removed. */
  function Without(s: seq<string>, x: string): (r: seq<string>)
    ensures |r| <= |s|
    ensures forall i :: 0 <= i < |r| ==> r[i] != x
    decreases |s|
  {
    if s == [] then []
    else Without(s[..|s| - 1], x) + (if s[|s| - 1] == x then [] else [s[|s| - 1]])
  }

  /** The keys that survive, in their order. */
  function Kept(keys: seq<string>): (r: seq<string>)
    ensures |r| <= |keys|
    ensures forall i :: 0 <= i < |r| ==> r[i] !in ExtraKeys
    decreases |keys|
  {
    if keys == [] then []
    else Kept(keys[..|keys| - 1]) + (if keys[|keys| - 1] in ExtraKeys then [] else [keys[|keys| - 1]])
  }

  /** The keys removed, in their order (the `removed` list). */
  function Extras(keys: seq<string>): (r: seq<string>)
    ensures |r| <= |keys|
    ensures forall i :: 0 <= i < |r| ==> r[i] in ExtraKeys
    decreases |keys|
  {
    if keys == [] then []
    else Extras(keys[..|keys| - 1]) + (if keys[|keys| - 1] in ExtraKeys then [keys[|keys| - 1]] else [])
  }

  /** Removing `x` keeps every other key and only those. */
  lemma {:induction false} WithoutMembers(s: seq<string>, x: string)
    ensures forall y :: y in Without(s, x) <==> y in s && y != x
    decreases |s|
  {
    if s != [] {
      var init := s[..|s| - 1];
      WithoutMembers(init, x);
      assert s == init + [s[|s| - 1]];
    }
  }

  /** Exactly the keys outside the extras are kept. */
  lemma {:induction false} KeptMembers(keys: seq<string>)
    ensures forall y :: y in Kept(keys) <==> y in keys && y !in ExtraKeys
    decreases |keys|
  {
    if keys != [] {
      var init := keys[..|keys| - 1];
      KeptMembers(init);
      assert keys == init + [keys[|keys| - 1]];
    }
  }

  /** Exactly the extra keys present are removed. */
  lemma {:induction false} ExtrasMembers(keys: seq<string>)
    ensures forall y :: y in Extras(keys) <==> y in keys && y in ExtraKeys
    decreases |keys|
  {
    if keys != [] {
      var init := keys[..|keys| - 1];
      ExtrasMembers(init);
      assert keys == init + [keys[|keys| - 1]];
    }
  }

  /** The argument values after stripping: every extra key gone, every other key with its value. */
  function WithoutExtras(values: map<string, Json>): (r: map<string, Json>)
    ensures forall k :: k in r ==> k !in ExtraKeys
    ensures forall k :: k !in ExtraKeys ==> (k in r <==> k in values)
    ensures forall k :: k in r ==> r[k] == values[k]
  {
    map k | k in values && k !in ExtraKeys :: values[k]
  }

  /** An insertion-ordered argument dict, as the tool call carries it. */
  class ArgumentDict {
    var keys: seq<string>
    var values: map<string, Json>

    /** The order lists each key of the dict once. */
    ghost predicate Valid()
      reads this
    {
      Distinct(keys) && forall k :: k in values <==> k in keys
    }

    constructor(keys: seq<string>, values: map<string, Json>)
      requires Distinct(keys) && forall k :: k in values <==> k in keys
      ensures Valid() && this.keys == keys && this.values == values
    {
      this.keys := keys;
      this.values := values;
    }

    /** `pop(key, None)`: removes the key if present, without complaint otherwise. */
    method Pop(key: string) returns (popped: Option<Json>)
      requires Valid()
      modifies this
      ensures Valid()
      ensures values == old(values) - {key}
      ensures keys == Without(old(keys), key)
      ensures popped == if key in old(values) then Some(old(values)[key]) else None
    {
      if key !in values {
        WithoutAbsent(keys, key);
        return None;
      }
      popped := Some(values[key]);
      var j := IndexOf(keys, key);
      RemoveKey(keys, values, j);
      keys := keys[..j] + keys[j + 1..];
      values := values - {key};
    }
  }

  /** Where `x` sits in `s`: the position of its first occurrence. */
  function IndexOf(s: seq<string>, x: string): (j: nat)
    requires x in s
    ensures j < |s| && s[j] == x
    ensures forall i :: 0 <= i < j ==> s[i] != x
  {
    if s[0] == x then 0
    else
      DropOne(s, 0);
      1 + IndexOf(s[1..], x)
  }

  lemma {:induction false} WithoutAbsent(s: seq<string>, x: string)
    requires x !in s
    ensures Without(s, x) == s
    decreases |s|
  {
    if s != [] {
      WithoutAbsent(s[..|s| - 1], x);
      assert s[..|s| - 1] + [s[|s| - 1]] == s;
    }
  }

  lemma {:induction false} WithoutAppend(a: seq<string>, b: seq<string>, x: string)
    ensures Without(a + b, x) == Without(a, x) + Without(b, x)
    decreases |b|
  {
    if b == [] {
      assert a + b == a;
    } else {
      var b' := b[..|b| - 1];
      WithoutAppend(a, b', x);
      assert (a + b)[..|a + b| - 1] == a + b';
      assert (a + b)[|a + b| - 1] == b[|b| - 1];
    }
  }

  /** Cutting out the position of a key keeps the dict's order valid for the remaining keys. */
  lemma RemoveKey(keys: seq<string>, values: map<string, Json>, j: nat)
    requires Distinct(keys) && (forall k :: k in values <==> k in keys) && j < |keys|
    ensures Without(keys, keys[j]) == keys[..j] + keys[j + 1..]
    ensures Distinct(keys[..j] + keys[j + 1..])
    ensures forall k :: k in values - {keys[j]} <==> k in keys[..j] + keys[j + 1..]
  {
    WithoutDistinct(keys, j);
    WithoutMembers(keys, keys[j]);
    DistinctCut(keys, j);
  }

  /** Cutting one position out of a list without repeats leaves a list without repeats. */
  lemma DistinctCut(s: seq<string>, j: nat)
    requires Distinct(s) && j < |s|
    ensures Distinct(s[..j] + s[j + 1..])
  {
    var r := s[..j] + s[j + 1..];
    forall a, b | 0 <= a < b < |r| ensures r[a] != r[b] {
      var a' := if a < j then a else a + 1;
      var b' := if b < j then b else b + 1;
      assert r[a] == s[a'] && r[b] == s[b'];
    }
  }

  /** Removing a key that occurs once, at `j`, cuts that one position out. */
  lemma WithoutDistinct(s: seq<string>, j: nat)
    requires Distinct(s) && j < |s|
    ensures Without(s, s[j]) == s[..j] + s[j + 1..]
  {
    SplitAround(s, j);
    NotEarlier(s, j);
    NotLater(s, j);
    WithoutOnce(s[..j], s[j], s[j + 1..]);
  }

  /** In a list without repeats a key does not occur before its position. */
  lemma NotEarlier(s: seq<string>, i: nat)
    requires Distinct(s) && i < |s|
    ensures s[i] !in s[..i]
  {
    var earlier := s[..i];
    forall m | 0 <= m < |earlier| ensures earlier[m] != s[i] {
      assert earlier[m] == s[m];
    }
  }

  /** `context.message.arguments`: absent, present but not a dict, or a dict the middleware may edit. */
  datatype Arguments = Missing | NotADict(value: Json) | ADict(dict: ArgumentDict)

  /** The middleware context; the next handler receives this same object. */
  class MiddlewareContext {
    const arguments: Arguments

    constructor(arguments: Arguments)
      ensures this.arguments == arguments
    {
      this.arguments := arguments;
    }
  }

  /** What the middleware may change: the argument dict, when there is one. */
  function Editable(context: MiddlewareContext): set<object> {
    if context.arguments.ADict? then {context.arguments.dict} else {}
  }

  /** The arguments as a handler finds them in the context when it reads them. */
  datatype ArgumentsSeen = NoArguments | OtherValue(value: Json) | ArgumentValues(keys: seq<string>, values: map<string, Json>)

  /** What the next handler reads from the context at the moment it is called. */
  function SeenArguments(context: MiddlewareContext): ArgumentsSeen
    reads Editable(context)
  {
    match context.arguments
    case Missing => NoArguments
    case NotADict(value) => OtherValue(value)
    case ADict(d) => ArgumentValues(d.keys, d.values)
  }

  lemma SplitSnoc(s: seq<string>, i: nat)
    requires i < |s|
    ensures Kept(s[..i + 1]) == Kept(s[..i]) + (if s[i] in ExtraKeys then [] else [s[i]])
    ensures Extras(s[..i + 1]) == Extras(s[..i]) + (if s[i] in ExtraKeys then [s[i]] else [])
  {
    TakeOneMore(s, i);
  }

  /** The dict's key order after `i` passes of the loop over `snapshot`: kept keys seen so far, then the unseen ones. */
  function Remaining(snapshot: seq<string>, i: nat): seq<string>
    requires i <= |snapshot|
  {
    Kept(snapshot[..i]) + snapshot[i..]
  }

  /** In a list without repeats a key does not occur again after its position. */
  lemma NotLater(s: seq<string>, i: nat)
    requires Distinct(s) && i < |s|
    ensures s[i] !in s[i + 1..]
  {
    var later := s[i + 1..];
    forall m | 0 <= m < |later| ensures later[m] != s[i] {
      assert later[m] == s[i + 1 + m];
    }
  }

  /** Removing a key that occurs exactly once cuts out that one occurrence. */
  lemma WithoutOnce(a: seq<string>, x: string, b: seq<string>)
    requires x !in a && x !in b
    ensures Without(a + ([x] + b), x) == a + b
  {
    WithoutAbsent(a, x);
    WithoutAbsent(b, x);
    WithoutAppend(a, [x] + b, x);
    WithoutAppend([x], b, x);
    assert [x][..0] == [];
    assert Without([x], x) == [];
    AppendEmpty(b);
    AppendEmpty(a);
  }

  /** A pass over an extra key: popping it gives the order of the next pass. */
  lemma PopStep(snapshot: seq<string>, i: nat)
    requires Distinct(snapshot) && i < |snapshot| && snapshot[i] in ExtraKeys
    ensures Without(Remaining(snapshot, i), snapshot[i]) == Remaining(snapshot, i + 1)
  {
    var x := snapshot[i];
    var kept := Kept(snapshot[..i]);
    var rest := snapshot[i + 1..];
    SplitSnoc(snapshot, i);
    NotLater(snapshot, i);
    DropOne(snapshot, i);
    WithoutOnce(kept, x, rest);
    AppendEmpty(kept);
  }

  /** A pass over any other key leaves the order as it is. */
  lemma KeepStep(snapshot: seq<string>, i: nat)
    requires i < |snapshot| && snapshot[i] !in ExtraKeys
    ensures Remaining(snapshot, i) == Remaining(snapshot, i + 1)
  {
    var x := snapshot[i];
    SplitSnoc(snapshot, i);
    DropOne(snapshot, i);
    AppendAssociates(Kept(snapshot[..i]), [x], snapshot[i + 1..]);
  }

  /** Every key of `a` is a key of `b` with the same value. */
  ghost predicate Within(a: map<string, Json>, b: map<string, Json>) {
    forall k :: k in a ==> k in b && a[k] == b[k]
  }

  /** After the last pass the dict holds the kept keys, each with its old value. */
  lemma LoopEnd(snapshot: seq<string>, keys: seq<string>, values: map<string, Json>, before: map<string, Json>)
    requires forall k :: k in before <==> k in snapshot
    requires keys == Remaining(snapshot, |snapshot|)
    requires forall k :: k in values <==> k in keys
    requires Within(values, before)
    ensures keys == Kept(snapshot)
    ensures values == WithoutExtras(before)
  {
    RemainingAtEnd(snapshot);
    KeptMembers(snapshot);
    StrippedValues(snapshot, values, before);
  }

  /** After the last pass only the kept keys remain. */
  lemma RemainingAtEnd(snapshot: seq<string>)
    ensures Remaining(snapshot, |snapshot|) == Kept(snapshot)
  {
    Whole(snapshot);
    SameKept(snapshot[..|snapshot|], snapshot);
    AppendEmpty(Kept(snapshot));
  }

  /** Equal key lists keep the same keys. */
  lemma SameKept(a: seq<string>, b: seq<string>)
    requires a == b
    ensures Kept(a) == Kept(b)
  {
  }

  /** Values holding exactly the non-extra keys, with their old values, are the stripped values. */
  lemma StrippedValues(snapshot: seq<string>, values: map<string, Json>, before: map<string, Json>)
    requires forall k :: k in before <==> k in snapshot
    requires forall k :: k in values <==> k in snapshot && k !in ExtraKeys
    requires forall k :: k in values ==> k in before && values[k] == before[k]
    ensures values == WithoutExtras(before)
  {
    var w := WithoutExtras(before);
    forall k ensures k in values <==> k in w {
    }
    forall k | k in values ensures values[k] == w[k] {
    }
    SameEntries(values, w);
  }

  /** Two maps with the same keys and the same value under each key are equal. */
  lemma SameEntries(a: map<string, Json>, b: map<string, Json>)
    requires forall k :: k in a <==> k in b
    requires forall k :: k in a ==> a[k] == b[k]
    ensures a == b
  {
  }

  /** The loop of `on_call_tool` over `list(args.keys())`: pops each extra key in key order and lists it in `removed`. */
  method StripExtras(args: ArgumentDict) returns (removed: seq<string>)
    requires args.Valid()
    modifies args
    ensures args.Valid()
    ensures args.values == WithoutExtras(old(args.values))
    ensures args.keys == Kept(old(args.keys))
    ensures removed == Extras(old(args.keys))
  {
    removed := [];
    var snapshot := args.keys;
    for i := 0 to |snapshot|
      invariant args.Valid()
      invariant args.keys == Remaining(snapshot, i)
      invariant removed == Extras(snapshot[..i])
      invariant Within(args.values, old(args.values))
    {
      var k := snapshot[i];
      assert Extras(snapshot[..i + 1]) == Extras(snapshot[..i]) + (if k in ExtraKeys then [k] else []) by {
        SplitSnoc(snapshot, i);
      }
      if k in ExtraKeys {
        var _ := args.Pop(k);
        assert args.keys == Remaining(snapshot, i + 1) by {
          PopStep(snapshot, i);
        }
        removed := removed + [k];
      } else {
        assert args.keys == Remaining(snapshot, i + 1) by {
          KeepStep(snapshot, i);
        }
      }
    }
    Whole(snapshot);
    LoopEnd(snapshot, args.keys, args.values, old(args.values));
  }

  /**
   * `N8NRemoveParametersMiddleware.on_call_tool(context, call_next)`, without the debug log.
   * The next handler is called only after the stripping, on the same context, so the
   * arguments it reads are the stripped ones.
   */
  method OnCallTool<R>(context: MiddlewareContext, callNext: ArgumentsSeen -> R) returns (result: R, removed: seq<string>)
    requires context.arguments.ADict? ==> context.arguments.dict.Valid()
    modifies Editable(context)
    ensures context.arguments.ADict? ==>
      var d := context.arguments.dict;
      && d.Valid()
      && d.values == WithoutExtras(old(d.values))
      && d.keys == Kept(old(d.keys))
      && removed == Extras(old(d.keys))
      && result == callNext(ArgumentValues(Kept(old(d.keys)), WithoutExtras(old(d.values))))
    ensures context.arguments.Missing? ==> removed == [] && result == callNext(NoArguments)
    ensures context.arguments.NotADict? ==> removed == [] && result == callNext(OtherValue(context.arguments.value))
  {
    removed := [];
    if context.arguments.ADict? {
      removed := StripExtras(context.arguments.dict);
    }
    result := callNext(SeenArguments(context));
  }

  // ---------------------------------------------------------------------
  // Properties of the stripping, on values
  // ---------------------------------------------------------------------

  /**
   * Matching is on exact names: a key that merely resembles an extra one
   * (`session_id`, `myAction`) survives with its value.
   */
  lemma ExactNames(values: map<string, Json>)
    requires "session_id" in values && "myAction" in values
    ensures "session_id" in WithoutExtras(values) && WithoutExtras(values)["session_id"] == values["session_id"]
    ensures "myAction" in WithoutExtras(values) && WithoutExtras(values)["myAction"] == values["myAction"]
  {
  }

  /** Stripping twice is stripping once, and arguments without extras pass through unchanged. */
  lemma WithoutExtrasIdempotent(values: map<string, Json>)
    ensures WithoutExtras(WithoutExtras(values)) == WithoutExtras(values)
    ensures (forall k :: k in values ==> k !in ExtraKeys) ==> WithoutExtras(values) == values
  {
  }

  /** Every key goes one way or the other: the kept and the removed keys together are as many as the keys. */
  lemma {:induction false} KeptAndExtrasPartition(keys: seq<string>)
    ensures |Kept(keys)| + |Extras(keys)| == |keys|
    decreases |keys|
  {
    if keys != [] {
      KeptAndExtrasPartition(keys[..|keys| - 1]);
    }
  }
}
