/**
 * The category registry `CATEGORY_CONFIG` (static/chart.js:1-34) and the
 * lookups the page makes in it: the color with its fallback, the display
 * label (which throws for an unknown key), the CSS class of a category cell
 * and the options of the category selector of an edited row.
 */
module Categories {
  import opened Wrappers
  import opened Text

  /** A configured category: its key, its `label` (named `title` here, `label` being a keyword) and its color. */
  datatype Category = Category(key: string, title: string, color: string)

  /** `CATEGORY_CONFIG`, in declaration order (the order of `Object.entries`). */
  const Config: seq<Category> := [
    Category("deplacement", "déplacement", "#A3E4D7"),
    Category("virement", "virement", "#F9E79F"),
    Category("nourriture_colloc", "nourriture (colloc)", "#AED6F1"),
    Category("nourriture_perso", "nourriture (gâterie)", "#FAD7A0"),
    Category("divers", "divers", "#D7DBDD"),
    Category("jeux", "jeux", "#F5B7B1"),
    Category("abonnement", "abonnement", "#D2B4DE"),
    Category("cadeaux", "cadeaux", "#F5CBA7")
  ]

  /** The color of a category that is not configured. */
  const FallbackColor: string := "#bbb"

  /** Reading `.label` of `CATEGORY_CONFIG[key]` when it is `undefined` throws a TypeError. */
  datatype LookupError = UnknownCategory(key: string)

  /** `CATEGORY_CONFIG[key]`: the configured category with that key, if any. */
  function Find(cs: seq<Category>, key: string): (r: Option<Category>)
    ensures r.Some? ==> r.value in cs && r.value.key == key
    ensures r.None? ==> forall i :: 0 <= i < |cs| ==> cs[i].key != key
  {
    if |cs| == 0 then None
    else if cs[0].key == key then Some(cs[0])
    else Find(cs[1..], key)
  }

  predicate IsConfigured(key: string) {
    exists i :: 0 <= i < |Config| && Config[i].key == key
  }

  predicate Unconfigured(key: string) {
    !IsConfigured(key)
  }

  /** No two configured categories share a key. */
  lemma ConfigKeysDistinct()
    ensures forall i, j :: 0 <= i < j < |Config| ==> Config[i].key != Config[j].key
  {
  }

  /** Every configured category has a non-empty label and color, neither of them the fallback. */
  lemma ConfigValuesPresent()
    ensures forall i :: 0 <= i < |Config| ==> Config[i].title != "" && Config[i].color != "" && Config[i].color != FallbackColor
  {
  }

  /** Lower-case ASCII letters and underscores only. */
  predicate PlainKey(s: string) {
    forall j :: 0 <= j < |s| ==> 'a' <= s[j] <= 'z' || s[j] == '_'
  }

  lemma ConfigKeysPlain()
    ensures forall i :: 0 <= i < |Config| ==> PlainKey(Config[i].key)
  {
    assert PlainKey("deplacement") && PlainKey("virement") && PlainKey("nourriture_colloc");
    assert PlainKey("nourriture_perso") && PlainKey("divers") && PlainKey("jeux");
    assert PlainKey("abonnement") && PlainKey("cadeaux");
  }

  /** Looking a configured key up finds the entry with that key. */
  lemma FindConfigured(i: int)
    requires 0 <= i < |Config|
    ensures Find(Config, Config[i].key) == Some(Config[i])
  {
    ConfigKeysDistinct();
  }

  /**
   * `getCategoryColor(key)` (static/chart.js:61-63):
   * `CATEGORY_CONFIG[key]?.color || "#bbb"`. It never fails.
   */
  function CategoryColor(key: string): (color: string)
    ensures color != ""
    ensures color == FallbackColor <==> !IsConfigured(key)
    ensures IsConfigured(key) ==> color == Find(Config, key).value.color
  {
    ConfigValuesPresent();
    match Find(Config, key)
    case Some(c) => if c.color != "" then c.color else FallbackColor
    case None => FallbackColor
  }

  /**
   * `CATEGORY_CONFIG[key].label || key` (static/chart.js:119, 218): the
   * configured label; for a key that is not configured, reading `.label` of
   * `undefined` throws, so the `|| key` fallback is never reached.
   */
  function CategoryLabel(key: string): (r: Result<string, LookupError>)
    ensures r.Success? <==> IsConfigured(key)
    ensures r.Success? ==> r.value == Find(Config, key).value.title && r.value != ""
    ensures r.Failure? ==> r.error == UnknownCategory(key)
  {
    ConfigValuesPresent();
    match Find(Config, key)
    case Some(c) => Success(if c.title != "" then c.title else key)
    case None => Failure(UnknownCategory(key))
  }

  /**
   * The class of a category cell (static/chart.js:120):
   * `"cat-" + key.replace(/\s+/g, "-").toLowerCase()`.
   */
  function CategoryClass(key: string): (cls: string)
  {
    "cat-" + ToLower(ReplaceSpaceRuns(key, '-'))
  }

  /** The class is a single CSS class token: "cat-" and then no whitespace. */
  lemma CategoryClassIsToken(key: string)
    ensures CategoryClass(key)[..4] == "cat-"
    ensures forall i :: 0 <= i < |CategoryClass(key)| ==> !IsSpace(CategoryClass(key)[i])
  {
    var r := ReplaceSpaceRuns(key, '-');
    ReplaceSpaceRunsNoSpace(key, '-');
    forall i | 0 <= i < |r| ensures !IsSpace(LowerChar(r[i])) {
      assert !IsSpace(r[i]);
    }
  }

  /**
   * For a configured key the class is "cat-" + key: exactly the class
   * whose rule `generateCategoryCSS` writes for that category.
   */
  lemma ConfiguredCategoryClass(i: int)
    requires 0 <= i < |Config|
    ensures CategoryClass(Config[i].key) == "cat-" + Config[i].key
  {
    var key := Config[i].key;
    ConfigKeysPlain();
    assert PlainKey(key);
    ReplaceSpaceRunsNone(key, '-');
    ToLowerKeepsOthers(key);
  }

  /** One `<option>` of the category selector of an edited row. */
  datatype SelectOption = SelectOption(value: string, text: string, selected: bool)

  /**
   * The options of the category selector of an edited row (static/chart.js:333-340):
   * one per configured category, in configuration order, selected exactly
   * when its value is the entry's category.
   */
  method EditCategoryOptions(category: string) returns (options: seq<SelectOption>)
    ensures |options| == |Config|
    ensures forall i :: 0 <= i < |options| ==>
      options[i].value == Config[i].key && options[i].text == Config[i].title
    ensures forall i :: 0 <= i < |options| ==> (options[i].selected <==> Config[i].key == category)
  {
    options := [];
    var i := 0;
    while i < |Config|
      invariant 0 <= i <= |Config|
      invariant |options| == i
      invariant forall k :: 0 <= k < i ==>
        options[k].value == Config[k].key && options[k].text == Config[k].title
      invariant forall k :: 0 <= k < i ==> (options[k].selected <==> Config[k].key == category)
    {
      var option := SelectOption(Config[i].key, Config[i].title, false);
      if Config[i].key == category {
        option := option.(selected := true);
      }
      options := options + [option];
      i := i + 1;
    }
  }

  /**
   * The selector marks exactly one option for a configured category and none
   * otherwise; with none marked, the browser shows the first option as chosen.
   */
  lemma EditOptionsSelection(category: string, options: seq<SelectOption>)
    requires |options| == |Config|
    requires forall i :: 0 <= i < |options| ==> (options[i].selected <==> Config[i].key == category)
    ensures IsConfigured(category) <==> exists i :: 0 <= i < |options| && options[i].selected
    ensures forall i, j :: 0 <= i < |options| && 0 <= j < |options| && options[i].selected && options[j].selected ==> i == j
  {
    ConfigKeysDistinct();
    if IsConfigured(category) {
      var c := Find(Config, category).value;
      var i :| 0 <= i < |Config| && Config[i] == c;
      assert options[i].selected;
    }
  }
}
