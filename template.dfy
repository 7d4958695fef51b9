/**
 * Rendering of a message template: every `${key}` of the variable map is replaced
 * by the key's value, one key at a time, in the map's iteration order; keys whose
 * value is `null` are skipped.
 */
module Template {
  import opened Wrappers
  import opened JavaText
  import opened StringReplace
  import opened Variables

  /** The literal text `${key}` searched for in the template. */
  function Placeholder(key: string): (p: string)
    ensures |p| == |key| + 3
    ensures p[0] == '$' && p[1] == '{' && p[|p| - 1] == '}'
    ensures p[2..|p| - 1] == key
  {
    "${" + key + "}"
  }

  /** `order` lists every key of `vars` exactly once: one possible iteration order of the map. */
  predicate IsEnumeration(order: seq<string>, vars: VariableMap)
  {
    && (forall i, j :: 0 <= i < j < |order| ==> order[i] != order[j])
    && (forall k :: k in order ==> k in vars)
    && (forall k :: k in vars ==> k in order)
  }

  /** A key with a non-null value: the only kind the rendering loop acts on. */
  predicate Active(vars: VariableMap, key: string)
  {
    key in vars && vars[key].Some?
  }

  /** The text after the loop has visited the keys of `order`, in that order. */
  function Substitute(content: string, order: seq<string>, vars: VariableMap): string
  {
    if order == [] then content
    else
      var key := order[|order| - 1];
      var before := Substitute(content, order[..|order| - 1], vars);
      if Active(vars, key) then Replace(before, Placeholder(key), vars[key].value) else before
  }

  /** The loop of `perform` over the map's keys, in whatever order the map yields them. */
  method Render(content: string, vars: VariableMap) returns (r: string, ghost order: seq<string>)
    ensures IsEnumeration(order, vars)
    ensures r == Substitute(content, order, vars)
  {
    r := content;
    order := [];
    var remaining := vars.Keys;
    while remaining != {}
      invariant remaining <= vars.Keys
      invariant forall i, j :: 0 <= i < j < |order| ==> order[i] != order[j]
      invariant forall k :: k in order <==> k in vars && k !in remaining
      invariant r == Substitute(content, order, vars)
      decreases remaining
    {
      var key :| key in remaining;
      var value := vars[key];
      if value.Some? {
        r := Replace(r, Placeholder(key), value.value);
      }
      assert (order + [key])[..|order|] == order;
      order := order + [key];
      remaining := remaining - {key};
    }
  }

  /** Text holding no placeholder of a key with a value is rendered unchanged. */
  lemma {:induction false} SubstituteWithoutPlaceholders(content: string, order: seq<string>, vars: VariableMap)
    requires forall k :: k in order && Active(vars, k) ==> !Contains(content, Placeholder(k))
    ensures Substitute(content, order, vars) == content
  {
    if order != [] {
      var key := order[|order| - 1];
      SubstituteWithoutPlaceholders(content, order[..|order| - 1], vars);
      if Active(vars, key) {
        ReplaceWithoutOccurrence(content, Placeholder(key), vars[key].value);
      }
    }
  }

  /** An entry whose value is `null` has no effect: rendering is as if it were absent. */
  lemma {:induction false} NullEntryIgnored(content: string, order: seq<string>, vars: VariableMap, key: string)
    requires key in vars && vars[key].None?
    ensures Substitute(content, order, vars) == Substitute(content, order, vars - {key})
  {
    if order != [] {
      NullEntryIgnored(content, order[..|order| - 1], vars, key);
    }
  }

  /** A key free of the three characters that delimit a placeholder. */
  predicate PlainKey(k: string)
  {
    forall i :: 0 <= i < |k| ==> k[i] != '$' && k[i] != '{' && k[i] != '}'
  }

  /** In the placeholder of a plain key, `$` appears only first and `}` only last. */
  lemma PlaceholderDelimiters(k: string)
    requires PlainKey(k)
    ensures forall d :: 0 < d < |Placeholder(k)| ==> Placeholder(k)[d] != '$'
    ensures forall d :: 0 <= d < |Placeholder(k)| - 1 ==> Placeholder(k)[d] != '}'
  {
    var p := Placeholder(k);
    forall d | 2 <= d < |p| - 1
      ensures p[d] == k[d - 2]
    {
      assert p[2..|p| - 1][d - 2] == p[d];
    }
  }

  /** An occurrence of `pj` cannot start before a placeholder and end inside it: it would meet its `$`. */
  lemma NoOccurrenceEntering(a: string, b: string, j: string, k: string)
    requires PlainKey(j) && PlainKey(k)
    ensures forall i :: 0 <= i < |a| < i + |Placeholder(j)| ==> !OccursAt(a + (Placeholder(k) + b), Placeholder(j), i)
  {
    var pj, y := Placeholder(j), Placeholder(k) + b;
    PlaceholderDelimiters(j);
    forall i | 0 <= i < |a| < i + |pj|
      ensures !OccursAt(a + y, pj, i)
    {
      assert (a + y)[|a|] == '$';
    }
  }

  /** Nor start inside a placeholder and end after it: it would meet its `$` or end on a non-`}`. */
  lemma NoOccurrenceLeaving(b: string, j: string, k: string)
    requires PlainKey(j) && PlainKey(k)
    ensures forall i :: 0 <= i < |Placeholder(k)| < i + |Placeholder(j)| ==> !OccursAt(Placeholder(k) + b, Placeholder(j), i)
  {
    var pj, pk := Placeholder(j), Placeholder(k);
    PlaceholderDelimiters(j);
    PlaceholderDelimiters(k);
    forall i | 0 <= i < |pk| < i + |pj|
      ensures !OccursAt(pk + b, pj, i)
    {
      assert (pk + b)[|pk| - 1] == '}';
      assert (pk + b)[i] == pk[i];
    }
  }

  /** Nor lie inside the placeholder of another plain key. */
  lemma NoOccurrenceInside(j: string, k: string)
    requires PlainKey(j) && PlainKey(k) && j != k
    ensures !Contains(Placeholder(k), Placeholder(j))
  {
    var pj, pk := Placeholder(j), Placeholder(k);
    PlaceholderDelimiters(j);
    PlaceholderDelimiters(k);
    if |pj| == |pk| {
      assert pk[2..|pk| - 1] == k;
      assert pj[2..|pj| - 1] == j;
      assert pj != pk;
    }
  }

  /** No occurrence of `${j}` straddles the start of `${k}`, so the text before it is replaced on its own. */
  lemma ReplaceBeforePlaceholder(a: string, b: string, j: string, k: string, v: string)
    requires PlainKey(j) && PlainKey(k)
    ensures Replace(a + (Placeholder(k) + b), Placeholder(j), v)
         == Replace(a, Placeholder(j), v) + Replace(Placeholder(k) + b, Placeholder(j), v)
  {
    NoOccurrenceEntering(a, b, j, k);
    ReplaceSplit(a, Placeholder(k) + b, Placeholder(j), v);
  }

  /** `${k}` itself holds no `${j}` and no occurrence leaves it, so it is kept and the rest replaced. */
  lemma ReplaceFromPlaceholder(b: string, j: string, k: string, v: string)
    requires PlainKey(j) && PlainKey(k) && j != k
    ensures Replace(Placeholder(k) + b, Placeholder(j), v) == Placeholder(k) + Replace(b, Placeholder(j), v)
  {
    var pj, pk := Placeholder(j), Placeholder(k);
    NoOccurrenceLeaving(b, j, k);
    ReplaceSplit(pk, b, pj, v);
    NoOccurrenceInside(j, k);
    ReplaceWithoutOccurrence(pk, pj, v);
  }

  /** Replacing the placeholder of one plain key leaves that of another intact, and the text on either side is replaced separately. */
  lemma PlaceholderKept(a: string, b: string, j: string, k: string, v: string)
    requires PlainKey(j) && PlainKey(k) && j != k
    ensures Replace(a + Placeholder(k) + b, Placeholder(j), v)
         == Replace(a, Placeholder(j), v) + Placeholder(k) + Replace(b, Placeholder(j), v)
  {
    var pj, pk := Placeholder(j), Placeholder(k);
    assert a + pk + b == a + (pk + b);
    ReplaceBeforePlaceholder(a, b, j, k, v);
    ReplaceFromPlaceholder(b, j, k, v);
    var ra, rb := Replace(a, pj, v), Replace(b, pj, v);
    assert ra + (pk + rb) == ra + pk + rb;
  }

  /**
   * A placeholder whose key is missing from the map, or maps to `null`, survives
   * rendering, provided no key contains `$`, `{` or `}`.
   */
  lemma {:induction false} UnknownPlaceholderSurvives(content: string, order: seq<string>, vars: VariableMap, k: string)
    requires PlainKey(k) && !Active(vars, k)
    requires forall key :: key in vars ==> PlainKey(key)
    requires Contains(content, Placeholder(k))
    ensures Contains(Substitute(content, order, vars), Placeholder(k))
  {
    if order != [] {
      var key := order[|order| - 1];
      var before := Substitute(content, order[..|order| - 1], vars);
      UnknownPlaceholderSurvives(content, order[..|order| - 1], vars, k);
      if Active(vars, key) {
        var pk := Placeholder(k);
        var i :| 0 <= i <= |before| && OccursAt(before, pk, i);
        var a, b := before[..i], before[i + |pk|..];
        assert before == a + pk + b;
        PlaceholderKept(a, b, key, k, vars[key].value);
        var a' := Replace(a, Placeholder(key), vars[key].value);
        var b' := Replace(b, Placeholder(key), vars[key].value);
        assert (a' + pk + b')[|a'|..|a'| + |pk|] == pk;
        assert OccursAt(a' + pk + b', pk, |a'|);
      }
    }
  }

  /** A list of distinct keys drawn from a set is no longer than the set. */
  lemma {:induction false} DistinctLength(order: seq<string>, keys: set<string>)
    requires forall i, j :: 0 <= i < j < |order| ==> order[i] != order[j]
    requires forall k :: k in order ==> k in keys
    ensures |order| <= |keys|
  {
    if order != [] {
      var n := |order| - 1;
      var init := order[..n];
      forall k | k in init
        ensures k in keys - {order[n]}
      {
        var i :| 0 <= i < n && init[i] == k;
        assert order[i] == k;
      }
      DistinctLength(init, keys - {order[n]});
    }
  }

  /** A map of two keys is enumerated in one of two orders. */
  lemma TwoKeyOrders(order: seq<string>, a: string, b: string, vars: VariableMap)
    requires a != b && vars.Keys == {a, b}
    requires IsEnumeration(order, vars)
    ensures order == [a, b] || order == [b, a]
  {
    assert a in order && b in order;
    DistinctLength(order, vars.Keys);
    assert |{a, b}| == 2;
    assert order[0] in order && order[1] in order;
  }

  /** Text without a `$`: it can hold no placeholder. */
  predicate NoDollar(s: string)
  {
    forall i :: 0 <= i < |s| ==> s[i] != '$'
  }

  lemma NoPlaceholderWithoutDollar(s: string, k: string)
    requires NoDollar(s)
    ensures !Contains(s, Placeholder(k))
  {
  }

  /** Text without a `$` is left alone by the replacement of any placeholder. */
  lemma KeepNoDollar(s: string, k: string, v: string)
    requires NoDollar(s)
    ensures Replace(s, Placeholder(k), v) == s
  {
    NoPlaceholderWithoutDollar(s, k);
    ReplaceWithoutOccurrence(s, Placeholder(k), v);
  }

  /** The placeholder itself is replaced, and the text on either side separately. */
  lemma ReplaceAtPlaceholder(a: string, b: string, k: string, v: string)
    requires PlainKey(k)
    ensures Replace(a + Placeholder(k) + b, Placeholder(k), v)
         == Replace(a, Placeholder(k), v) + v + Replace(b, Placeholder(k), v)
  {
    var pk := Placeholder(k);
    assert a + pk + b == a + (pk + b);
    NoOccurrenceEntering(a, b, k, k);
    ReplaceSplit(a, pk + b, pk, v);
    assert (pk + b)[..|pk|] == pk && (pk + b)[|pk|..] == b;
  }

  /** Replacing `${j}` in a template holding `${j}` once and `${k}` once, the rest free of `$`. */
  lemma ReplaceFirstOfTwo(head: string, mid: string, tail: string, j: string, k: string, v: string)
    requires PlainKey(j) && PlainKey(k) && j != k
    requires NoDollar(head) && NoDollar(mid) && NoDollar(tail)
    ensures Replace(head + Placeholder(j) + mid + Placeholder(k) + tail, Placeholder(j), v)
         == head + v + mid + Placeholder(k) + tail
  {
    var pj, pk := Placeholder(j), Placeholder(k);
    var rest := mid + pk + tail;
    calc {
      Replace(head + pj + mid + pk + tail, pj, v);
    == { assert head + pj + mid + pk + tail == head + pj + rest; }
      Replace(head + pj + rest, pj, v);
    == { ReplaceAtPlaceholder(head, rest, j, v); }
      Replace(head, pj, v) + v + Replace(rest, pj, v);
    == { KeepNoDollar(head, j, v); PlaceholderKept(mid, tail, j, k, v); KeepNoDollar(mid, j, v); KeepNoDollar(tail, j, v); }
      head + v + rest;
    ==
      head + v + mid + pk + tail;
    }
  }

  /** Replacing `${k}` in a template holding `${k}` once and the rest free of `$`. */
  lemma ReplaceOnly(head: string, tail: string, k: string, v: string)
    requires PlainKey(k) && NoDollar(head) && NoDollar(tail)
    ensures Replace(head + Placeholder(k) + tail, Placeholder(k), v) == head + v + tail
  {
    ReplaceAtPlaceholder(head, tail, k, v);
    KeepNoDollar(head, k, v);
    KeepNoDollar(tail, k, v);
  }

  /** Visiting two keys with values replaces the first key's placeholder, then the second's. */
  lemma SubstitutePair(content: string, a: string, b: string, vars: VariableMap)
    requires Active(vars, a) && Active(vars, b)
    ensures Substitute(content, [a, b], vars)
         == Replace(Replace(content, Placeholder(a), vars[a].value), Placeholder(b), vars[b].value)
  {
    assert [a, b][..1] == [a];
    assert [a][..0] == [];
    assert Substitute(content, [a], vars) == Replace(content, Placeholder(a), vars[a].value);
  }

  /** `${j}` replaced before `${k}`. */
  lemma ReplaceBothInOrder(head: string, mid: string, tail: string, j: string, k: string, vj: string, vk: string)
    requires PlainKey(j) && PlainKey(k) && j != k
    requires NoDollar(head) && NoDollar(mid) && NoDollar(tail) && NoDollar(vj)
    ensures Replace(Replace(head + Placeholder(j) + mid + Placeholder(k) + tail, Placeholder(j), vj), Placeholder(k), vk)
         == head + vj + mid + vk + tail
  {
    ReplaceFirstOfTwo(head, mid, tail, j, k, vj);
    assert head + vj + mid + Placeholder(k) + tail == (head + vj + mid) + Placeholder(k) + tail;
    ReplaceOnly(head + vj + mid, tail, k, vk);
  }

  /** Replacing `${k}` in a template holding `${j}` once and `${k}` once, the rest free of `$`. */
  lemma ReplaceSecondOfTwo(head: string, mid: string, tail: string, j: string, k: string, v: string)
    requires PlainKey(j) && PlainKey(k) && j != k
    requires NoDollar(head) && NoDollar(mid) && NoDollar(tail)
    ensures Replace(head + Placeholder(j) + mid + Placeholder(k) + tail, Placeholder(k), v)
         == head + Placeholder(j) + (mid + v + tail)
  {
    var pj, pk := Placeholder(j), Placeholder(k);
    var front := head + pj + mid;
    calc {
      Replace(head + pj + mid + pk + tail, pk, v);
    == { ReplaceAtPlaceholder(front, tail, k, v); }
      Replace(front, pk, v) + v + Replace(tail, pk, v);
    == { PlaceholderKept(head, mid, k, j, v); KeepNoDollar(head, k, v); KeepNoDollar(mid, k, v); }
      front + v + Replace(tail, pk, v);
    == { KeepNoDollar(tail, k, v); }
      front + v + tail;
    ==
      head + pj + (mid + v + tail);
    }
  }

  /** `${k}` replaced before `${j}`. */
  lemma ReplaceBothReversed(head: string, mid: string, tail: string, j: string, k: string, vj: string, vk: string)
    requires PlainKey(j) && PlainKey(k) && j != k
    requires NoDollar(head) && NoDollar(mid) && NoDollar(tail) && NoDollar(vk)
    ensures Replace(Replace(head + Placeholder(j) + mid + Placeholder(k) + tail, Placeholder(k), vk), Placeholder(j), vj)
         == head + vj + mid + vk + tail
  {
    ReplaceSecondOfTwo(head, mid, tail, j, k, vk);
    ReplaceOnly(head, mid + vk + tail, j, vj);
  }

  /**
   * A template with the placeholders of two distinct plain keys renders to the same text
   * in either iteration order when neither the surrounding text nor a value holds a `$`.
   */
  lemma SubstituteTwo(order: seq<string>, head: string, mid: string, tail: string, j: string, k: string, vj: string, vk: string)
    requires PlainKey(j) && PlainKey(k) && j != k
    requires NoDollar(head) && NoDollar(mid) && NoDollar(tail) && NoDollar(vj) && NoDollar(vk)
    requires IsEnumeration(order, map[j := Some(vj), k := Some(vk)])
    ensures Substitute(head + Placeholder(j) + mid + Placeholder(k) + tail, order, map[j := Some(vj), k := Some(vk)])
         == head + vj + mid + vk + tail
  {
    var vars := map[j := Some(vj), k := Some(vk)];
    var content := head + Placeholder(j) + mid + Placeholder(k) + tail;
    TwoKeyOrders(order, j, k, vars);
    if order == [j, k] {
      SubstitutePair(content, j, k, vars);
      ReplaceBothInOrder(head, mid, tail, j, k, vj, vk);
    } else {
      SubstitutePair(content, k, j, vars);
      ReplaceBothReversed(head, mid, tail, j, k, vj, vk);
    }
  }

  lemma ExampleResultPieces()
    ensures "{\"x\":\"demo-main\"}" == "{\"x\":\"" + "demo" + "-" + "main" + "\"}"
  {
  }

  lemma ExampleTextFacts()
    ensures PlainKey("project.name") && PlainKey("param.BRANCH")
    ensures NoDollar("{\"x\":\"") && NoDollar("-") && NoDollar("\"}") && NoDollar("demo") && NoDollar("main")
  {
  }

  /**
   * The template `{"x":"${project.name}-${param.BRANCH}"}`, written with `Placeholder`
   * for its two placeholders, renders to `{"x":"demo-main"}` in either order.
   */
  lemma RenderExample(order: seq<string>)
    requires IsEnumeration(order, map["project.name" := Some("demo"), "param.BRANCH" := Some("main")])
    ensures Substitute("{\"x\":\"" + Placeholder("project.name") + "-" + Placeholder("param.BRANCH") + "\"}", order,
                       map["project.name" := Some("demo"), "param.BRANCH" := Some("main")])
         == "{\"x\":\"demo-main\"}"
  {
    ExampleResultPieces();
    ExampleTextFacts();
    SubstituteTwo(order, "{\"x\":\"", "-", "\"}", "project.name", "param.BRANCH", "demo", "main");
  }
}
