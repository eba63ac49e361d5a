/** The two memo tables of the graphical client: fonts keyed by their
    attribute tuple (interpreter.py `_get_font_from_params`) and ttk style
    names keyed by widget type, font and colours (main.py `_get_style_name`).
    A cached object is represented by the serial number it was created with,
    which stands for its identity. */
module Styles {
  import opened Wrappers
  import opened Text
  import opened Markup

  const FontFamily := "TkFixedFont"

  /** The font attribute tuple `(family, size, weight, slant)`. */
  datatype FontKey = FontKey(family: string, size: int, weight: string, slant: string)

  /** The font a tag asks for with its parameters. */
  function FontKeyOf(p: Params): (k: FontKey)
    ensures k.family == FontFamily && k.size == p.size
    ensures k.weight == (if p.bold then "bold" else "normal")
    ensures k.slant == (if p.italic then "italic" else "roman")
  {
    FontKey(FontFamily, p.size, if p.bold then "bold" else "normal", if p.italic then "italic" else "roman")
  }

  /** Two tags share a font exactly when they agree on size, bold and
      italic; every other parameter is irrelevant to the font. */
  lemma SameFontIffSameAttributes(p: Params, q: Params)
    ensures FontKeyOf(p) == FontKeyOf(q) <==> (p.size == q.size && p.bold == q.bold && p.italic == q.italic)
  {
  }

  /** A created font: the key it was made from and its creation number. */
  datatype Font = Font(key: FontKey, serial: nat)

  type FontCache = map<FontKey, Font>

  /** Every cached font sits under its own key and the creation numbers are
      exactly 0 .. size-1, one per font. */
  ghost predicate FontsValid(cache: FontCache) {
    && (forall k :: k in cache ==> cache[k].key == k && cache[k].serial < |cache|)
    && (forall k1, k2 :: k1 in cache && k2 in cache && k1 != k2 ==> cache[k1].serial != cache[k2].serial)
  }

  datatype FontLookup = FontLookup(cache: FontCache, font: Font)

  /** Returns the cached font for `key`, creating (and caching) a new one
      first when there is none. */
  function GetFont(cache: FontCache, key: FontKey): (r: FontLookup)
    ensures key in r.cache && r.font == r.cache[key] && r.font.key == (if key in cache then cache[key].key else key)
    ensures key in cache ==> r.cache == cache
    ensures key !in cache ==> r.cache.Keys == cache.Keys + {key} && r.font.serial == |cache|
    ensures forall k :: k in cache ==> k in r.cache && r.cache[k] == cache[k]
  {
    if key in cache then FontLookup(cache, cache[key])
    else
      var f := Font(key, |cache|);
      FontLookup(cache[key := f], f)
  }

  /** The cache stays well formed, and the font returned is the one made
      for this key. */
  lemma GetFontKeepsValid(cache: FontCache, key: FontKey)
    requires FontsValid(cache)
    ensures FontsValid(GetFont(cache, key).cache)
    ensures GetFont(cache, key).font.key == key
  {
    if key !in cache {
      var c := GetFont(cache, key).cache;
      assert |c| == |cache| + 1 by {
        assert c.Keys == cache.Keys + {key};
      }
    }
  }

  /** Asking twice for the same key yields the same font object, whatever
      was asked in between. */
  lemma {:induction false} SameKeySameFont(cache: FontCache, key: FontKey, between: seq<FontKey>)
    ensures var first := GetFont(cache, key);
      GetFont(GetAll(first.cache, between), key).font == first.font
  {
    var first := GetFont(cache, key);
    GetAllKeeps(first.cache, between);
  }

  /** The cache after a run of lookups. */
  function GetAll(cache: FontCache, keys: seq<FontKey>): FontCache
    decreases |keys|
  {
    if |keys| == 0 then cache else GetAll(GetFont(cache, keys[0]).cache, keys[1..])
  }

  /** A run of lookups never drops or replaces a cached font. */
  lemma {:induction false} GetAllKeeps(cache: FontCache, keys: seq<FontKey>)
    ensures forall k :: k in cache ==> k in GetAll(cache, keys) && GetAll(cache, keys)[k] == cache[k]
    decreases |keys|
  {
    if |keys| > 0 {
      GetAllKeeps(GetFont(cache, keys[0]).cache, keys[1..]);
    }
  }

  /** Different keys in a well-formed cache are different font objects. */
  lemma DistinctKeysDistinctFonts(cache: FontCache, k1: FontKey, k2: FontKey)
    requires FontsValid(cache) && k1 in cache && k2 in cache && k1 != k2
    ensures cache[k1] != cache[k2]
  {
  }

  // ---------------------------------------------------------------------
  // Style names

  /** The style key `(widget type, font attributes, foreground, background)`. */
  datatype StyleKey = StyleKey(widgetType: string, font: Option<FontKey>, fg: Option<string>, bg: Option<string>)

  /** The name given to the `n`-th style created: `Custom{type}{n}.T{type}`. */
  function StyleName(widgetType: string, n: nat): string {
    "Custom" + widgetType + NatToString(n) + ".T" + widgetType
  }

  /** The style table: for each key, the number of styles that existed when
      it was created; its name is `StyleName` of that number. */
  type StyleCache = map<StyleKey, nat>

  ghost predicate StylesValid(cache: StyleCache) {
    && (forall k :: k in cache ==> cache[k] < |cache|)
    && (forall k1, k2 :: k1 in cache && k2 in cache && k1 != k2 ==> cache[k1] != cache[k2])
  }

  datatype StyleLookup = StyleLookup(cache: StyleCache, name: string)

  /** The style name for a key: the stored one when the key was seen
      before, otherwise a fresh name numbered by the table's size. */
  function GetStyleName(cache: StyleCache, key: StyleKey): (r: StyleLookup)
    ensures key in cache ==> r.cache == cache && r.name == StyleName(key.widgetType, cache[key])
    ensures key !in cache ==> r.cache == cache[key := |cache|] && r.name == StyleName(key.widgetType, |cache|)
  {
    if key in cache then StyleLookup(cache, StyleName(key.widgetType, cache[key]))
    else StyleLookup(cache[key := |cache|], StyleName(key.widgetType, |cache|))
  }

  /** Looking a key up keeps the table well formed, and the name returned is
      the one the table now records for it. */
  lemma GetStyleNameKeepsValid(cache: StyleCache, key: StyleKey)
    requires StylesValid(cache)
    ensures var r := GetStyleName(cache, key);
      StylesValid(r.cache) && key in r.cache && r.name == StyleName(key.widgetType, r.cache[key])
  {
    if key !in cache {
      var c := GetStyleName(cache, key).cache;
      assert c.Keys == cache.Keys + {key};
      assert |c| == |cache| + 1;
    }
  }

  /** Names of different numbers for one widget type never coincide. */
  lemma StyleNameInjective(widgetType: string, m: nat, n: nat)
    requires m != n
    ensures StyleName(widgetType, m) != StyleName(widgetType, n)
  {
    NatToStringInjective(m, n);
    var pre := "Custom" + widgetType;
    var post := ".T" + widgetType;
    var sm := StyleName(widgetType, m);
    var sn := StyleName(widgetType, n);
    assert sm[|pre|..|sm| - |post|] == NatToString(m);
    assert sn[|pre|..|sn| - |post|] == NatToString(n);
  }

  /** In a well-formed table, two different keys of the same widget type
      get different style names, so one style never serves two looks. */
  lemma DistinctKeysDistinctNames(cache: StyleCache, k1: StyleKey, k2: StyleKey)
    requires StylesValid(cache) && k1 in cache && k2 in cache && k1 != k2
    requires k1.widgetType == k2.widgetType
    ensures StyleName(k1.widgetType, cache[k1]) != StyleName(k2.widgetType, cache[k2])
  {
    StyleNameInjective(k1.widgetType, cache[k1], cache[k2]);
  }

  /** The first style created for buttons is `CustomButton0.TButton`, and a
      repeated key gets the same name back. */
  lemma FirstButtonStyle(key: StyleKey)
    requires key.widgetType == "Button"
    ensures GetStyleName(map[], key).name == "CustomButton0.TButton"
    ensures var r := GetStyleName(map[], key); GetStyleName(r.cache, key) == r
  {
    assert NatToString(0) == "0";
  }
}
