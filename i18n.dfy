/**
 * Message lookup (src/lib/i18n.ts): a locale picks one of two dictionaries, a
 * dotted key walks into it, and `{name}` placeholders are filled in. The two
 * JSON dictionaries are inputs (`Dictionaries`); their contents are not part of
 * this model.
 */
module I18n {
  import opened Wrappers
  import opened Js

  const DefaultLocale: string := "pt-BR"

  datatype Dictionaries = Dictionaries(ptBR: Bag, en: Bag)

  /** `dictionaries[locale] ?? dictionaries[DEFAULT_LOCALE]` (lines 8-14). */
  function GetDictionary(dicts: Dictionaries, locale: string): (r: Bag)
    ensures locale == "en" ==> r == dicts.en
    ensures locale != "en" ==> r == dicts.ptBR
  {
    if locale == "en" then dicts.en else dicts.ptBR
  }

  // ---------------------------------------------------------------------------
  // `path.split(".")`

  /** `s.split(sep)` for a one-character separator: empty pieces are kept, "" gives [""]. */
  function Split(s: string, sep: char): (r: seq<string>)
    ensures |r| >= 1
    ensures forall k | 0 <= k < |r| :: sep !in r[k]
  {
    if s == [] then [""]
    else
      var rest := Split(s[1..], sep);
      if s[0] == sep then [""] + rest
      else [[s[0]] + rest[0]] + rest[1..]
  }

  /** `parts.join(sep)` */
  function Join(parts: seq<string>, sep: char): string
    requires |parts| >= 1
  {
    if |parts| == 1 then parts[0] else parts[0] + [sep] + Join(parts[1..], sep)
  }

  lemma {:induction false} JoinSplit(s: string, sep: char)
    ensures Join(Split(s, sep), sep) == s
  {
    if s != [] {
      JoinSplit(s[1..], sep);
      var rest := Split(s[1..], sep);
      if s[0] != sep && |rest| > 1 {
        assert ([[s[0]] + rest[0]] + rest[1..])[1..] == rest[1..];
      }
    }
  }

  lemma {:induction false} SplitNoSep(a: string, sep: char)
    requires sep !in a
    ensures Split(a, sep) == [a]
  {
    if a != [] {
      SplitNoSep(a[1..], sep);
      assert [a[0]] + a[1..] == a;
    }
  }

  lemma {:induction false} SplitAtSep(a: string, b: string, sep: char)
    requires sep !in a
    ensures Split(a + [sep] + b, sep) == [a] + Split(b, sep)
  {
    if a == [] {
      assert a + [sep] + b == [sep] + b;
      assert ([sep] + b)[1..] == b;
    } else {
      var s := a + [sep] + b;
      assert s[1..] == a[1..] + [sep] + b;
      SplitAtSep(a[1..], b, sep);
      assert [a[0]] + a[1..] == a;
    }
  }

  /** Splitting undoes joining when no piece holds the separator. */
  lemma {:induction false} SplitJoin(parts: seq<string>, sep: char)
    requires |parts| >= 1 && forall k | 0 <= k < |parts| :: sep !in parts[k]
    ensures Split(Join(parts, sep), sep) == parts
  {
    if |parts| == 1 {
      SplitNoSep(parts[0], sep);
    } else {
      SplitJoin(parts[1..], sep);
      SplitAtSep(parts[0], Join(parts[1..], sep), sep);
      assert [parts[0]] + parts[1..] == parts;
    }
  }

  // ---------------------------------------------------------------------------
  // getNestedValue

  /** One step of the `reduce`: only a truthy object is looked into (lines 21-22). */
  function Lookup(acc: JsValue, key: string): JsValue {
    match acc
    case Obj(m) => Get(m, key)
    case _ => Undefined
  }

  function Walk(acc: JsValue, keys: seq<string>): JsValue
    decreases keys
  {
    if keys == [] then acc else Walk(Lookup(acc, keys[0]), keys[1..])
  }

  /** `getNestedValue(dict, path)` (lines 16-24). */
  function GetNestedValue(dict: Bag, path: string): JsValue {
    Walk(Obj(dict), Split(path, '.'))
  }

  lemma {:induction false} WalkAppend(acc: JsValue, a: seq<string>, b: seq<string>)
    ensures Walk(acc, a + b) == Walk(Walk(acc, a), b)
    decreases a
  {
    if a == [] {
      assert a + b == b;
    } else {
      assert (a + b)[1..] == a[1..] + b;
      WalkAppend(Lookup(acc, a[0]), a[1..], b);
    }
  }

  /** Once the walk reaches something that is not an object, every further key gives undefined. */
  lemma {:induction false} WalkStopsAtNonObject(acc: JsValue, keys: seq<string>)
    requires !acc.Obj? && keys != []
    ensures Walk(acc, keys) == Undefined
    decreases keys
  {
    if |keys| > 1 {
      WalkStopsAtNonObject(Undefined, keys[1..]);
    }
  }

  /** A key without "." is a plain property lookup. */
  lemma FlatKey(dict: Bag, key: string)
    requires '.' !in key
    ensures GetNestedValue(dict, key) == Get(dict, key)
  {
    SplitNoSep(key, '.');
    assert Walk(Obj(dict), [key]) == Walk(Get(dict, key), [key][1..]);
    assert [key][1..] == [];
  }

  /**
   * `a.rest` looks `rest` up inside `dict[a]` when that is an object; otherwise
   * it is undefined, whatever `rest` is.
   */
  lemma DottedKey(dict: Bag, a: string, rest: string)
    requires '.' !in a
    ensures GetNestedValue(dict, a + "." + rest) ==
            match Get(dict, a) case Obj(m) => GetNestedValue(m, rest) case _ => Undefined
  {
    SplitAtSep(a, rest, '.');
    assert a + "." + rest == a + ['.'] + rest;
    var keys := Split(rest, '.');
    assert Walk(Obj(dict), [a] + keys) == Walk(Get(dict, a), keys) by {
      assert ([a] + keys)[1..] == keys;
    }
    if !Get(dict, a).Obj? {
      WalkStopsAtNonObject(Get(dict, a), keys);
    }
  }

  // ---------------------------------------------------------------------------
  // `text.replace(pattern, value)` with a string pattern

  predicate Occurs(text: string, pat: string, k: int) {
    0 <= k && k + |pat| <= |text| && text[k..k + |pat|] == pat
  }

  /** The first position at or after `i` where `pat` occurs. */
  function IndexOf(text: string, pat: string, i: nat): (r: Option<nat>)
    requires i <= |text|
    ensures r.Some? ==> i <= r.value && Occurs(text, pat, r.value) &&
                        forall k | i <= k < r.value :: !Occurs(text, pat, k)
    ensures r.None? ==> forall k | i <= k <= |text| :: !Occurs(text, pat, k)
    decreases |text| - i
  {
    if i + |pat| > |text| then None
    else if text[i..i + |pat|] == pat then Some(i)
    else if i == |text| then None
    else IndexOf(text, pat, i + 1)
  }

  /** Two positions that are each the first occurrence are the same. */
  lemma FirstOccurrenceUnique(text: string, pat: string, j: int, j': int)
    requires Occurs(text, pat, j) && forall k | 0 <= k < j :: !Occurs(text, pat, k)
    requires Occurs(text, pat, j') && forall k | 0 <= k < j' :: !Occurs(text, pat, k)
    ensures j == j'
  {
  }

  /** `text.replace(pat, rep)`: the first occurrence of `pat`, if any, becomes `rep`. */
  function ReplaceFirst(text: string, pat: string, rep: string): string {
    match IndexOf(text, pat, 0)
    case None => text
    case Some(j) => text[..j] + rep + text[j + |pat|..]
  }

  /** With no occurrence the text is unchanged. */
  lemma NoOccurrenceUnchanged(text: string, pat: string, rep: string)
    requires forall k | 0 <= k <= |text| :: !Occurs(text, pat, k)
    ensures ReplaceFirst(text, pat, rep) == text
  {
  }

  /** Only the first occurrence is replaced, and the text around it is kept. */
  lemma ReplacesFirstOnly(text: string, pat: string, rep: string, j: int)
    requires Occurs(text, pat, j) && forall k | 0 <= k < j :: !Occurs(text, pat, k)
    ensures ReplaceFirst(text, pat, rep) == text[..j] + rep + text[j + |pat|..]
  {
    var m := IndexOf(text, pat, 0);
    if m.Some? {
      FirstOccurrenceUnique(text, pat, m.value, j);
    }
  }

  function Placeholder(name: string): string {
    "{" + name + "}"
  }

  /** `Object.entries(vars).reduce(...)` (lines 31-34): the vars in entry order, each replacing its first placeholder. */
  function ApplyVars(text: string, vars: seq<(string, string)>): string
    decreases vars
  {
    if vars == [] then text
    else ApplyVars(ReplaceFirst(text, Placeholder(vars[0].0), vars[0].1), vars[1..])
  }

  /** `t(locale, key, vars)` (lines 26-35); `vars == None` is an absent argument. */
  function T(dicts: Dictionaries, locale: string, key: string, vars: Option<seq<(string, string)>>): string {
    var value := GetNestedValue(GetDictionary(dicts, locale), key);
    if !value.Str? then key
    else if vars.None? then value.s
    else ApplyVars(value.s, vars.value)
  }

  // ---------------------------------------------------------------------------
  // Properties of `t`

  /** Whatever is not a string at the key (a missing key, a sub-dictionary, a number) gives back the key. */
  lemma MissingKeyGivesKey(dicts: Dictionaries, locale: string, key: string, vars: Option<seq<(string, string)>>)
    requires !GetNestedValue(GetDictionary(dicts, locale), key).Str?
    ensures T(dicts, locale, key, vars) == key
  {
  }

  lemma NoVarsGivesEntry(dicts: Dictionaries, locale: string, key: string, s: string)
    requires GetNestedValue(GetDictionary(dicts, locale), key) == Str(s)
    ensures T(dicts, locale, key, None) == s
  {
  }

  /** An unknown locale reads the `pt-BR` dictionary. */
  lemma UnknownLocaleFallsBack(dicts: Dictionaries, locale: string, key: string, vars: Option<seq<(string, string)>>)
    requires locale != "en"
    ensures T(dicts, locale, key, vars) == T(dicts, DefaultLocale, key, vars)
  {
  }

  /** Vars whose placeholders never appear leave the text as it is. */
  lemma {:induction false} UnusedVarsKeepText(text: string, vars: seq<(string, string)>)
    requires forall v, k | v in vars && 0 <= k <= |text| :: !Occurs(text, Placeholder(v.0), k)
    ensures ApplyVars(text, vars) == text
  {
    if vars != [] {
      assert vars[0] in vars;
      NoOccurrenceUnchanged(text, Placeholder(vars[0].0), vars[0].1);
      UnusedVarsKeepText(text, vars[1..]);
    }
  }

  /** A single var replaces its first `{name}` only: a second `{name}` and everything after it survive. */
  lemma OnlyFirstOccurrence(text: string, name: string, value: string, j: nat)
    requires Occurs(text, Placeholder(name), j)
    requires forall k | 0 <= k < j :: !Occurs(text, Placeholder(name), k)
    ensures ApplyVars(text, [(name, value)]) ==
            text[..j] + value + text[j + |Placeholder(name)|..]
  {
    ReplacesFirstOnly(text, Placeholder(name), value, j);
    assert [(name, value)][1..] == [];
  }
}
