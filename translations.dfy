/**
 * `getTranslation`: a key is looked up in the requested language, then in
 * English, then falls back to the key itself; each `{name}` placeholder
 * is then replaced, first occurrence only, in the order of the
 * parameter object's keys. The string table is a parameter.
 */
module Translations {
  import opened Wrappers
  import opened Text

  /** Language code to (key to text). */
  type Table = map<string, map<string, string>>

  /** `dict[key] || …`: a missing entry and an empty string both fall through. */
  predicate Found(dict: map<string, string>, key: string) {
    key in dict && dict[key] != ""
  }

  /**
   * `translations[lang][key] || translations['en'][key] || key`; a language
   * missing from the table makes the first index fail. Only the table's own
   * keys are modelled, not the members a plain object inherits from
   * `Object.prototype`.
   */
  function Lookup(table: Table, lang: string, key: string): (r: Option<string>)
    requires "en" in table
    ensures r.Some? <==> lang in table
    ensures r.Some? && Found(table[lang], key) ==> r.value == table[lang][key]
    ensures r.Some? && !Found(table[lang], key) && Found(table["en"], key) ==> r.value == table["en"][key]
    ensures r.Some? && !Found(table[lang], key) && !Found(table["en"], key) ==> r.value == key
    ensures r.Some? && r.value == "" ==> key == ""
  {
    if lang !in table then None
    else if Found(table[lang], key) then Some(table[lang][key])
    else if Found(table["en"], key) then Some(table["en"][key])
    else Some(key)
  }

  function Placeholder(name: string): string {
    "{" + name + "}"
  }

  /** The text after the first `|params|` substitutions, in order. */
  function Substituted(text: string, params: seq<(string, string)>): string
    decreases |params|
  {
    if params == [] then text
    else
      var last := params[|params| - 1];
      ReplaceFirst(Substituted(text, params[..|params| - 1]), Placeholder(last.0), last.1)
  }

  /** No `$` in a value, so `replace` inserts it literally. */
  predicate LiteralValues(params: seq<(string, string)>) {
    forall i :: 0 <= i < |params| ==> '$' !in params[i].1
  }

  /**
   * `getTranslation(lang, key, params)` with the parameter object given as
   * its entries in key order.
   */
  method GetTranslation(table: Table, lang: string, key: string, params: seq<(string, string)>) returns (r: Option<string>)
    requires "en" in table
    requires LiteralValues(params)
    ensures r.None? <==> lang !in table
    ensures r.Some? ==> r.value == Substituted(Lookup(table, lang, key).value, params)
    ensures r.Some? && params == [] ==> r.value == Lookup(table, lang, key).value
  {
    if lang !in table {
      return None;
    }
    var text := Lookup(table, lang, key).value;
    ghost var looked := text;
    for i := 0 to |params|
      invariant text == Substituted(looked, params[..i])
    {
      assert params[..i + 1][..i] == params[..i];
      var (name, value) := params[i];
      text := ReplaceFirst(text, Placeholder(name), value);
    }
    assert params[..|params|] == params;
    r := Some(text);
  }

  /**
   * Only the first `{name}` is replaced: with the text `a + "{name}" + b`,
   * where `a` holds no `{name}`, the result is `a + value + b`, so any
   * later `{name}` in `b` stays literal.
   */
  lemma FirstOccurrenceOnly(a: string, name: string, value: string, b: string)
    requires forall j: nat :: j < |a| ==> !OccursAt(a + Placeholder(name) + b, Placeholder(name), j)
    ensures Substituted(a + Placeholder(name) + b, [(name, value)]) == a + value + b
  {
    var params := [(name, value)];
    assert params[..0] == [];
    ReplaceFirstAt(a, Placeholder(name), b, value);
  }

  /** A text holding none of the parameters' placeholders comes back unchanged, its own placeholders included. */
  lemma {:induction false} UnmatchedKept(text: string, params: seq<(string, string)>)
    requires forall i :: 0 <= i < |params| ==> !Contains(text, Placeholder(params[i].0))
    ensures Substituted(text, params) == text
    decreases |params|
  {
    if params != [] {
      var init := params[..|params| - 1];
      assert forall i :: 0 <= i < |init| ==> init[i] == params[i];
      UnmatchedKept(text, init);
      ReplaceFirstAbsent(text, Placeholder(params[|params| - 1].0), params[|params| - 1].1);
    }
  }

  /** A parameter name with no braces, so its placeholder is delimited by its own braces. */
  predicate BraceFree(name: string) {
    '{' !in name && '}' !in name
  }

  /** An occurrence of `{name}` is `{`, then `name`, then `}`. */
  lemma PlaceholderAt(s: string, name: string, i: nat)
    requires OccursAt(s, Placeholder(name), i)
    ensures s[i] == '{' && s[i + |name| + 1] == '}'
    ensures s[i + 1..i + 1 + |name|] == name
  {
    assert s[i + 1..i + 1 + |name|] == s[i..i + |name| + 2][1..|name| + 1];
  }

  /** Two different brace-free placeholders never overlap in any text. */
  lemma PlaceholdersDisjoint(s: string, x: string, i: nat, q: string, j: nat)
    requires BraceFree(x) && BraceFree(q) && x != q
    requires OccursAt(s, Placeholder(x), i) && OccursAt(s, Placeholder(q), j)
    ensures i + |x| + 2 <= j || j + |q| + 2 <= i
  {
    PlaceholderAt(s, x, i);
    PlaceholderAt(s, q, j);
    assert forall m :: i < m <= i + |x| ==> s[m] != '{' && s[m] != '}';
    assert forall m :: j < m <= j + |q| ==> s[m] != '{' && s[m] != '}';
  }

  /** Replacing another brace-free placeholder keeps an occurrence of `{q}`. */
  lemma ReplaceKeeps(s: string, x: string, v: string, q: string, j: nat)
    requires BraceFree(x) && BraceFree(q) && x != q
    requires OccursAt(s, Placeholder(q), j)
    ensures Contains(ReplaceFirst(s, Placeholder(x), v), Placeholder(q))
  {
    var px, pq := Placeholder(x), Placeholder(q);
    var r := ReplaceFirst(s, px, v);
    match IndexOf(s, px)
    case None =>
      assert OccursAt(r, pq, j);
    case Some(i) =>
      PlaceholdersDisjoint(s, x, i, q, j);
      if j + |pq| <= i {
        assert r[j..j + |pq|] == s[j..j + |pq|];
        assert OccursAt(r, pq, j);
      } else {
        var k := j - |px| + |v|;
        assert r[k..k + |pq|] == s[j..j + |pq|];
        assert OccursAt(r, pq, k);
      }
  }

  /**
   * A placeholder `{q}` for which no parameter is given stays in the text,
   * whatever the other (brace-free) parameters insert.
   */
  lemma {:induction false} UnmatchedPlaceholderSurvives(text: string, params: seq<(string, string)>, q: string)
    requires BraceFree(q) && Contains(text, Placeholder(q))
    requires forall i :: 0 <= i < |params| ==> BraceFree(params[i].0) && params[i].0 != q
    ensures Contains(Substituted(text, params), Placeholder(q))
    decreases |params|
  {
    if params != [] {
      var init := params[..|params| - 1];
      assert forall i :: 0 <= i < |init| ==> init[i] == params[i];
      UnmatchedPlaceholderSurvives(text, init, q);
      var mid := Substituted(text, init);
      var j: nat :| j <= |mid| && OccursAt(mid, Placeholder(q), j);
      ReplaceKeeps(mid, params[|params| - 1].0, params[|params| - 1].1, q, j);
    }
  }

  /** Substituting one more parameter is one more first-occurrence replace. */
  lemma SubstitutedStep(text: string, params: seq<(string, string)>, p: (string, string))
    ensures Substituted(text, params + [p]) == ReplaceFirst(Substituted(text, params), Placeholder(p.0), p.1)
  {
    assert (params + [p])[..|params|] == params;
  }
}
