/** The message catalogs of src/utils/language.ts: the catalog table, the
    active-language selector and the key-set consistency check `langCheck`.
    A catalog is a value whose leaves are message templates; only its key
    shape matters here. */
module Language {
  import opened Wrappers
  import opened Values
  import Objects
  import Strings

  /** `getLang(selected)`: the catalog listed under that name. */
  function GetLang(langMap: seq<(string, Value)>, selected: string): (r: Result<Value, string>)
    ensures r.Ok? <==> Has(langMap, selected)
    ensures r.Ok? ==> r.value == Get(langMap, selected)
    ensures r.Err? ==> r.error == "Selected lang \"" + selected + "\" is not available."
  {
    if !Has(langMap, selected) then Err("Selected lang \"" + selected + "\" is not available.")
    else Ok(Get(langMap, selected))
  }

  /** Every language the table lists can be selected, and selecting it
      gives its own catalog. */
  lemma ListedLanguageAvailable(langMap: seq<(string, Value)>, i: nat)
    requires i < |langMap|
    requires forall j :: 0 <= j < |langMap| && j != i ==> langMap[j].0 != langMap[i].0
    ensures GetLang(langMap, langMap[i].0) == Ok(langMap[i].1)
  {
    GetFirst(langMap, i);
  }

  /** The module state: the catalog table `langMap` and the active
      language `lang`. */
  class Languages {
    const langMap: seq<(string, Value)>
    var lang: string

    /** At load, the active language is "en". */
    constructor (langMap: seq<(string, Value)>)
      ensures this.langMap == langMap && lang == "en"
    {
      this.langMap := langMap;
      lang := "en";
    }

    /** `getLang()` with its default argument: the active catalog. */
    function Active(): Result<Value, string>
      reads this
    {
      GetLang(langMap, lang)
    }

    /** `setLang(newLang)`: from now on `getLang()` and `getLangString`
        read the catalog listed under `newLang`. */
    method SetLang(newLang: string)
      modifies this
      ensures lang == newLang
      ensures Active() == GetLang(langMap, newLang)
      ensures GetLang(langMap, newLang).Ok? ==>
        forall key :: GetLangString(key) == Objects.AccessKey(GetLang(langMap, newLang).value, key)
    {
      lang := newLang;
    }

    /** `getLangString(key)`: the entry at a dotted path of the active
        catalog. */
    function GetLangString(key: string): (r: Result<Value, string>)
      reads this
      ensures !Has(langMap, lang) ==> r == Err("Selected lang \"" + lang + "\" is not available.")
      ensures Has(langMap, lang) ==> r == Objects.AccessKey(Get(langMap, lang), key)
    {
      match Active()
      case Err(e) => Err(e)
      case Ok(catalog) => Objects.AccessKey(catalog, key)
    }

    /** `langCheck()`: collect every catalog's leaf keys, then judge them. */
    method LangCheck() returns (r: Result<(), string>)
      ensures r == Verdict(KeyMap(langMap))
    {
      var keyMap: seq<(string, seq<string>)> := [];
      var i := 0;
      while i < |langMap|
        invariant i <= |langMap|
        invariant keyMap == KeyMap(langMap[..i])
      {
        var names := Objects.KeyNames(langMap[i].1);
        assert langMap[..i + 1][..i] == langMap[..i];
        keyMap := keyMap + [(langMap[i].0, names)];
        i := i + 1;
      }
      assert langMap[..i] == langMap;
      r := Verdict(keyMap);
    }
  }

  /** `keyMap`: each catalog's name with its leaf keys, in table order. */
  function KeyMap(langs: seq<(string, Value)>): seq<(string, seq<string>)> {
    if langs == [] then []
    else KeyMap(langs[..|langs| - 1]) + [(langs[|langs| - 1].0, Objects.Leaves(langs[|langs| - 1].1))]
  }

  /** The catalog names of a key map, in order. */
  function Names(keyMap: seq<(string, seq<string>)>): (names: seq<string>)
    ensures |names| == |keyMap|
    ensures forall i :: 0 <= i < |keyMap| ==> names[i] == keyMap[i].0
  {
    seq(|keyMap|, i requires 0 <= i < |keyMap| => keyMap[i].0)
  }

  /** `Math.max` of the list lengths; -1 stands for the `-Infinity` of an
      empty table, below every length. */
  function MaxLength(keyMap: seq<(string, seq<string>)>): (m: int)
    ensures forall i :: 0 <= i < |keyMap| ==> |keyMap[i].1| <= m
    ensures keyMap == [] ==> m == -1
    ensures keyMap != [] ==> exists i :: 0 <= i < |keyMap| && |keyMap[i].1| == m
  {
    if keyMap == [] then -1
    else
      var rest := MaxLength(keyMap[1..]);
      assert forall i :: 1 <= i < |keyMap| ==> keyMap[i] == keyMap[1..][i - 1];
      if |keyMap[0].1| >= rest then |keyMap[0].1| else rest
  }

  /** `array.find(item => !other.includes(item))`. */
  function FirstNotIn(a: seq<string>, other: seq<string>): (r: Option<string>)
    ensures r.Some? ==> r.value in a && r.value !in other
    ensures r.None? <==> forall s :: s in a ==> s in other
    ensures r.Some? ==> exists i :: 0 <= i < |a| && a[i] == r.value && forall j :: 0 <= j < i ==> a[j] in other
  {
    if a == [] then None
    else if a[0] !in other then Some(a[0])
    else
      var r := FirstNotIn(a[1..], other);
      assert forall s :: s in a ==> s == a[0] || s in a[1..];
      assert r.Some? ==> exists i :: 1 <= i < |a| && a[i] == r.value && forall j :: 0 <= j < i ==> a[j] in other by {
        if r.Some? {
          var i :| 0 <= i < |a[1..]| && a[1..][i] == r.value && forall j :: 0 <= j < i ==> a[1..][j] in other;
          assert forall j :: 0 <= j < i + 1 ==> a[j] in other by {
            forall j | 0 <= j < i + 1 ensures a[j] in other {
              if j > 0 { assert a[j] == a[1..][j - 1]; }
            }
          }
          assert a[i + 1] == r.value;
        }
      }
      r
  }

  /** The truthiness of `a.find(...) ?? b.find(...)`: the first item of
      either list missing from the other, which is falsy when that item is
      the empty key. */
  predicate Differs(a: seq<string>, b: seq<string>) {
    match FirstNotIn(a, b)
    case Some(s) => s != ""
    case None => FirstNotIn(b, a).Some? && FirstNotIn(b, a).value != ""
  }

  /** `lowerLengths`: the catalogs whose list is shorter than the longest. */
  function Shorter(keyMap: seq<(string, seq<string>)>): seq<string> {
    var max := MaxLength(keyMap);
    Names(Filter(keyMap, (e: (string, seq<string>)) => |e.1| < max))
  }

  /** `sameLength`: the catalogs whose list is as long as the longest. */
  function SameLength(keyMap: seq<(string, seq<string>)>): seq<(string, seq<string>)> {
    var max := MaxLength(keyMap);
    Filter(keyMap, (e: (string, seq<string>)) => |e.1| == max)
  }

  /** `missing`: among `sameLength`, the catalogs that differ from some
      other-named one. */
  function Different(keyMap: seq<(string, seq<string>)>): seq<string> {
    var same := SameLength(keyMap);
    Names(Filter(same, (e: (string, seq<string>)) => exists d :: d in same && d.0 != e.0 && Differs(e.1, d.1)))
  }

  /** What `langCheck` does with its key map: throw "less data" naming the
      short catalogs, else "different data" naming the differing ones,
      else return normally. */
  function Verdict(keyMap: seq<(string, seq<string>)>): (r: Result<(), string>)
    ensures Shorter(keyMap) != [] ==> r == Err("Given languages has less data: " + Strings.Join(Shorter(keyMap), ", "))
    ensures Shorter(keyMap) == [] && Different(keyMap) != [] ==>
      r == Err("Given languages has different data between them: " + Strings.Join(Different(keyMap), ", "))
    ensures r.Ok? <==> Shorter(keyMap) == [] && Different(keyMap) == []
  {
    var lower := Shorter(keyMap);
    if |lower| > 0 then Err("Given languages has less data: " + Strings.Join(lower, ", "))
    else
      var missing := Different(keyMap);
      if |missing| > 0 then Err("Given languages has different data between them: " + Strings.Join(missing, ", "))
      else Ok(())
  }

  /** "less data" names exactly the catalogs whose leaf-key list is
      shorter than the longest one. */
  lemma ShorterNamesShortCatalogs(keyMap: seq<(string, seq<string>)>, i: nat)
    requires i < |keyMap|
    ensures keyMap[i].0 in Shorter(keyMap) <==>
      exists j :: 0 <= j < |keyMap| && keyMap[j].0 == keyMap[i].0 && |keyMap[j].1| < MaxLength(keyMap)
  {
    var max := MaxLength(keyMap);
    var p := (e: (string, seq<string>)) => |e.1| < max;
    var short := Filter(keyMap, p);
    if keyMap[i].0 in Shorter(keyMap) {
      var k :| 0 <= k < |short| && Names(short)[k] == keyMap[i].0;
      var j :| 0 <= j < |keyMap| && keyMap[j] == short[k];
    }
    if exists j :: 0 <= j < |keyMap| && keyMap[j].0 == keyMap[i].0 && |keyMap[j].1| < max {
      var j :| 0 <= j < |keyMap| && keyMap[j].0 == keyMap[i].0 && |keyMap[j].1| < max;
      var k :| 0 <= k < |short| && short[k] == keyMap[j];
      assert Names(short)[k] == keyMap[i].0;
    }
  }

  /** With no empty keys, two lists differ in the sense of `langCheck`
      exactly when some item of one is missing from the other. */
  lemma DiffersIff(a: seq<string>, b: seq<string>)
    requires "" !in a && "" !in b
    ensures Differs(a, b) <==> !SameMembers(a, b)
  {
  }

  /** Two leaf-key lists with the same items, ignoring order and repeats. */
  predicate SameMembers(a: seq<string>, b: seq<string>) {
    (forall s :: s in a ==> s in b) && (forall s :: s in b ==> s in a)
  }

  /** No catalog has a leaf key that is the empty string. */
  predicate NoEmptyKeys(keyMap: seq<(string, seq<string>)>) {
    forall i :: 0 <= i < |keyMap| ==> "" !in keyMap[i].1
  }

  /** When all lists have the longest length, `sameLength` is the whole
      key map. */
  lemma SameLengthIsAll(keyMap: seq<(string, seq<string>)>)
    requires forall i :: 0 <= i < |keyMap| ==> |keyMap[i].1| == MaxLength(keyMap)
    ensures forall e :: e in SameLength(keyMap) <==> e in keyMap
  {
  }

  /** No catalog is short exactly when every list has the longest length. */
  lemma NoneShorter(keyMap: seq<(string, seq<string>)>)
    ensures Shorter(keyMap) == [] <==> forall i :: 0 <= i < |keyMap| ==> |keyMap[i].1| == MaxLength(keyMap)
  {
    var max := MaxLength(keyMap);
    if Shorter(keyMap) == [] {
      forall i | 0 <= i < |keyMap| ensures |keyMap[i].1| == max {
        ShorterNamesShortCatalogs(keyMap, i);
      }
    } else {
      var short := Filter(keyMap, (e: (string, seq<string>)) => |e.1| < max);
      assert short[0] in keyMap;
    }
  }

  /** All lists have the longest length exactly when all have the same
      length. */
  lemma AllLongestIffEqual(keyMap: seq<(string, seq<string>)>)
    ensures (forall i :: 0 <= i < |keyMap| ==> |keyMap[i].1| == MaxLength(keyMap)) <==>
      (forall i, j :: 0 <= i < |keyMap| && 0 <= j < |keyMap| ==> |keyMap[i].1| == |keyMap[j].1|)
  {
    if keyMap != [] {
      var m :| 0 <= m < |keyMap| && |keyMap[m].1| == MaxLength(keyMap);
    }
  }

  /** When no list is short and no key is empty, no catalog differs
      exactly when differently named catalogs have the same leaf keys. */
  lemma NoneDifferent(keyMap: seq<(string, seq<string>)>)
    requires NoEmptyKeys(keyMap)
    requires forall i :: 0 <= i < |keyMap| ==> |keyMap[i].1| == MaxLength(keyMap)
    ensures Different(keyMap) == [] <==>
      forall i, j :: 0 <= i < |keyMap| && 0 <= j < |keyMap| && keyMap[i].0 != keyMap[j].0 ==>
        SameMembers(keyMap[i].1, keyMap[j].1)
  {
    SameLengthIsAll(keyMap);
    var same := SameLength(keyMap);
    var p := (e: (string, seq<string>)) => exists d :: d in same && d.0 != e.0 && Differs(e.1, d.1);
    var diff := Filter(same, p);
    if diff == [] {
      forall i, j | 0 <= i < |keyMap| && 0 <= j < |keyMap| && keyMap[i].0 != keyMap[j].0
        ensures SameMembers(keyMap[i].1, keyMap[j].1)
      {
        var e, d := keyMap[i], keyMap[j];
        assert e in same && d in same;
        DiffersIff(e.1, d.1);
        assert Differs(e.1, d.1) ==> p(e);
        assert p(e) ==> e in diff;
      }
    } else {
      var e := diff[0];
      var d :| d in same && d.0 != e.0 && Differs(e.1, d.1);
      var i :| 0 <= i < |keyMap| && keyMap[i] == e;
      var j :| 0 <= j < |keyMap| && keyMap[j] == d;
      DiffersIff(e.1, d.1);
    }
  }

  /** `langCheck` passes exactly when all catalogs have leaf-key lists of
      the same length and any two differently named catalogs have the same
      leaf keys. */
  lemma LangCheckPasses(keyMap: seq<(string, seq<string>)>)
    requires NoEmptyKeys(keyMap)
    ensures Verdict(keyMap).Ok? <==>
      && (forall i, j :: 0 <= i < |keyMap| && 0 <= j < |keyMap| ==> |keyMap[i].1| == |keyMap[j].1|)
      && (forall i, j :: 0 <= i < |keyMap| && 0 <= j < |keyMap| && keyMap[i].0 != keyMap[j].0 ==>
            SameMembers(keyMap[i].1, keyMap[j].1))
  {
    NoneShorter(keyMap);
    AllLongestIffEqual(keyMap);
    if Shorter(keyMap) == [] {
      NoneDifferent(keyMap);
    }
  }

  /** The empty key slips through: a catalog with leaf keys "a" and "" and
      one with "a" twice pass `langCheck`, though "" is missing from the
      second. */
  lemma EmptyKeySlipsThrough()
    ensures Verdict([("en", ["a", ""]), ("tr", ["a", "a"])]) == Ok(())
    ensures !SameMembers(["a", ""], ["a", "a"])
  {
  }
}
