/** The media-effects route (`app/api/media-effects/route.ts`): POST compiles
    a list of effect identifiers into a Cloudinary transformation string and
    builds the original and transformed delivery URLs; GET lists the effect
    catalogue by category. Both are pure functions of their inputs here: the
    signed-in user id (from Clerk), the configured cloud name (from the
    environment) and the parsed JSON body. */
module MediaEffects {
  import opened Wrappers
  import opened Js

  /** The fixed table from effect identifier to its fragment of the
      Cloudinary transformation grammar (`effectsMap`). */
  const EffectsMap: map<string, string> := map[
    // Compression & Optimization
    "autoCompress" := "q_auto,f_auto",
    "webpFormat" := "f_webp",
    "avifFormat" := "f_avif",
    // Enhancement Effects
    "autoEnhance" := "e_auto_color,e_auto_contrast,e_auto_brightness",
    "sharpen" := "e_sharpen:100",
    "unsharpMask" := "e_unsharp_mask:200",
    // Color Effects
    "vibrance" := "e_vibrance:30",
    "saturation" := "e_saturation:20",
    "brightness" := "e_brightness:10",
    "contrast" := "e_contrast:15",
    // Artistic Effects
    "blur" := "e_blur:300",
    "grayscale" := "e_grayscale",
    "sepia" := "e_sepia:80",
    "vintage" := "e_sepia:50,e_brightness:-10,e_contrast:15",
    // Background Effects
    "removeBackground" := "e_background_removal",
    "blurBackground" := "e_blur_region:1000,g_face",
    // Size & Format
    "resize800" := "w_800,h_600,c_fit",
    "resize1200" := "w_1200,h_900,c_fit",
    "thumbnail" := "w_300,h_300,c_thumb,g_face",
    // Video Specific
    "videoCompress" := "q_auto,f_auto",
    "generateThumbnail" := "so_2.0,w_400,h_300,c_fill",
    "videoPreview" := "so_0,du_3,w_400,h_300,c_fill,f_gif"
  ]

  /** A fragment is never empty and never contains `/`: it is kept by
      `filter(Boolean)` and adds no path segment to a URL. */
  predicate WellFormedFragment(f: string) {
    f != "" && '/' !in f
  }

  /** Every entry of a lookup table is a well-formed fragment. */
  predicate WellFormedTable(table: map<string, string>) {
    forall id | id in table :: WellFormedFragment(table[id])
  }

  /** Every fragment of the map is well formed. */
  lemma FragmentsWellFormed()
    ensures WellFormedTable(EffectsMap)
  {
    forall id | id in EffectsMap ensures WellFormedFragment(EffectsMap[id]) {
      FragmentWellFormed(id);
    }
  }

  /** The fragment of one key is well formed: the key belongs to one of the
      seven commented groups, each checked by a lemma of its own. */
  lemma FragmentWellFormed(id: string)
    requires id in EffectsMap
    ensures WellFormedFragment(EffectsMap[id])
  {
    if id in ["autoCompress", "webpFormat", "avifFormat"] {
      CompressionWellFormed(id);
    } else if id in ["autoEnhance", "sharpen", "unsharpMask"] {
      EnhancementWellFormed(id);
    } else if id in ["vibrance", "saturation", "brightness", "contrast"] {
      ColorAdjustmentsWellFormed(id);
    } else if id in ["blur", "grayscale", "sepia", "vintage"] {
      ArtisticEffectsWellFormed(id);
    } else if id in ["removeBackground", "blurBackground"] {
      BackgroundEffectsWellFormed(id);
    } else if id in ["resize800", "resize1200", "thumbnail"] {
      ResizingWellFormed(id);
    } else if id in ["videoCompress", "generateThumbnail", "videoPreview"] {
      VideoEffectsWellFormed(id);
    }
  }

  lemma CompressionWellFormed(id: string)
    requires id in ["autoCompress", "webpFormat", "avifFormat"]
    ensures id in EffectsMap && WellFormedFragment(EffectsMap[id])
  {
    if id == "autoCompress" {
      assert EffectsMap[id] == "q_auto,f_auto";
    } else if id == "webpFormat" {
      assert EffectsMap[id] == "f_webp";
    } else {
      assert EffectsMap[id] == "f_avif";
    }
  }

  lemma EnhancementWellFormed(id: string)
    requires id in ["autoEnhance", "sharpen", "unsharpMask"]
    ensures id in EffectsMap && WellFormedFragment(EffectsMap[id])
  {
    if id == "autoEnhance" {
      assert EffectsMap[id] == "e_auto_color,e_auto_contrast,e_auto_brightness";
      AutoEnhanceFragmentWellFormed();
    } else if id == "sharpen" {
      assert EffectsMap[id] == "e_sharpen:100";
    } else {
      assert EffectsMap[id] == "e_unsharp_mask:200";
    }
  }

  lemma ColorAdjustmentsWellFormed(id: string)
    requires id in ["vibrance", "saturation", "brightness", "contrast"]
    ensures id in EffectsMap && WellFormedFragment(EffectsMap[id])
  {
    if id == "vibrance" {
      assert EffectsMap[id] == "e_vibrance:30";
    } else if id == "saturation" {
      assert EffectsMap[id] == "e_saturation:20";
    } else if id == "brightness" {
      assert EffectsMap[id] == "e_brightness:10";
    } else {
      assert EffectsMap[id] == "e_contrast:15";
    }
  }

  lemma ArtisticEffectsWellFormed(id: string)
    requires id in ["blur", "grayscale", "sepia", "vintage"]
    ensures id in EffectsMap && WellFormedFragment(EffectsMap[id])
  {
    if id == "blur" {
      assert EffectsMap[id] == "e_blur:300";
    } else if id == "grayscale" {
      assert EffectsMap[id] == "e_grayscale";
    } else if id == "sepia" {
      assert EffectsMap[id] == "e_sepia:80";
    } else {
      assert EffectsMap[id] == "e_sepia:50,e_brightness:-10,e_contrast:15";
      VintageFragmentWellFormed();
    }
  }

  lemma BackgroundEffectsWellFormed(id: string)
    requires id in ["removeBackground", "blurBackground"]
    ensures id in EffectsMap && WellFormedFragment(EffectsMap[id])
  {
    if id == "removeBackground" {
      assert EffectsMap[id] == "e_background_removal";
    } else {
      assert EffectsMap[id] == "e_blur_region:1000,g_face";
    }
  }

  lemma ResizingWellFormed(id: string)
    requires id in ["resize800", "resize1200", "thumbnail"]
    ensures id in EffectsMap && WellFormedFragment(EffectsMap[id])
  {
    if id == "resize800" {
      assert EffectsMap[id] == "w_800,h_600,c_fit";
    } else if id == "resize1200" {
      assert EffectsMap[id] == "w_1200,h_900,c_fit";
    } else {
      assert EffectsMap[id] == "w_300,h_300,c_thumb,g_face";
    }
  }

  lemma VideoEffectsWellFormed(id: string)
    requires id in ["videoCompress", "generateThumbnail", "videoPreview"]
    ensures id in EffectsMap && WellFormedFragment(EffectsMap[id])
  {
    if id == "videoCompress" {
      assert EffectsMap[id] == "q_auto,f_auto";
    } else if id == "generateThumbnail" {
      assert EffectsMap[id] == "so_2.0,w_400,h_300,c_fill";
    } else {
      assert EffectsMap[id] == "so_0,du_3,w_400,h_300,c_fill,f_gif";
      VideoPreviewFragmentWellFormed();
    }
  }

  /** The three longest fragments, each checked apart from the map a piece
      at a time. */
  lemma AutoEnhanceFragmentWellFormed()
    ensures WellFormedFragment("e_auto_color,e_auto_contrast,e_auto_brightness")
  {
    JoinedWellFormed("e_auto_color,", "e_auto_contrast,", "e_auto_brightness");
  }

  lemma VintageFragmentWellFormed()
    ensures WellFormedFragment("e_sepia:50,e_brightness:-10,e_contrast:15")
  {
    JoinedWellFormed("e_sepia:50,", "e_brightness:-10,", "e_contrast:15");
  }

  lemma VideoPreviewFragmentWellFormed()
    ensures WellFormedFragment("so_0,du_3,w_400,h_300,c_fill,f_gif")
  {
    JoinedWellFormed("so_0,du_3,", "w_400,h_300,", "c_fill,f_gif");
  }

  lemma JoinedWellFormed(a: string, b: string, c: string)
    requires WellFormedFragment(a) && '/' !in b && '/' !in c
    ensures WellFormedFragment(a + b + c)
  {
    assert forall i | 0 <= i < |a + b + c| :: (a + b + c)[i] in a || (a + b + c)[i] in b || (a + b + c)[i] in c;
  }

  // ---------------------------------------------------------------------
  // The catalogue returned by GET

  datatype CatalogEntry = CatalogEntry(id: string, description: string)
  datatype Category = Category(name: string, entries: seq<CatalogEntry>)

  /** `availableEffects`, in the order of the object literal. */
  const AvailableEffects: seq<Category> := [
    Category("compression", [
      CatalogEntry("autoCompress", "Smart compression with quality preservation"),
      CatalogEntry("webpFormat", "Convert to WebP format (smaller size)"),
      CatalogEntry("avifFormat", "Convert to AVIF format (best compression)")]),
    Category("enhancement", [
      CatalogEntry("autoEnhance", "AI-powered auto enhancement"),
      CatalogEntry("sharpen", "Sharpen image details"),
      CatalogEntry("unsharpMask", "Advanced sharpening technique")]),
    Category("colorAdjustments", [
      CatalogEntry("vibrance", "Boost color vibrance"),
      CatalogEntry("saturation", "Increase color saturation"),
      CatalogEntry("brightness", "Adjust brightness levels"),
      CatalogEntry("contrast", "Enhance contrast")]),
    Category("artisticEffects", [
      CatalogEntry("blur", "Apply blur effect"),
      CatalogEntry("grayscale", "Convert to grayscale"),
      CatalogEntry("sepia", "Apply sepia tone"),
      CatalogEntry("vintage", "Vintage photo effect")]),
    Category("backgroundEffects", [
      CatalogEntry("removeBackground", "AI background removal"),
      CatalogEntry("blurBackground", "Blur background, keep subject sharp")]),
    Category("resizing", [
      CatalogEntry("resize800", "Resize to 800x600 (web optimized)"),
      CatalogEntry("resize1200", "Resize to 1200x900 (high quality)"),
      CatalogEntry("thumbnail", "Create thumbnail (300x300)")]),
    Category("videoEffects", [
      CatalogEntry("videoCompress", "Compress video file"),
      CatalogEntry("generateThumbnail", "Generate video thumbnail"),
      CatalogEntry("videoPreview", "Create GIF preview")])
  ]

  const SupportedImageFormats: seq<string> := ["jpg", "jpeg", "png", "gif", "webp", "avif"]
  const SupportedVideoFormats: seq<string> := ["mp4", "avi", "mov", "wmv", "flv", "webm"]

  /** The identifiers of a category, in order. */
  function EntryIds(entries: seq<CatalogEntry>): seq<string> {
    seq(|entries|, i requires 0 <= i < |entries| => entries[i].id)
  }

  /** The identifiers of all categories, in order. */
  function CatalogIds(cats: seq<Category>): seq<string> {
    if cats == [] then [] else EntryIds(cats[0].entries) + CatalogIds(cats[1..])
  }

  predicate Distinct(s: seq<string>) {
    forall i, j | 0 <= i < j < |s| :: s[i] != s[j]
  }

  lemma {:induction false} DistinctCardinality(s: seq<string>)
    requires Distinct(s)
    ensures |set x | x in s| == |s|
  {
    if s != [] {
      DistinctCardinality(s[1..]);
      assert (set x | x in s) == {s[0]} + (set x | x in s[1..]);
    }
  }

  lemma CategoryIds()
    ensures EntryIds(AvailableEffects[0].entries) == ["autoCompress", "webpFormat", "avifFormat"]
    ensures EntryIds(AvailableEffects[1].entries) == ["autoEnhance", "sharpen", "unsharpMask"]
    ensures EntryIds(AvailableEffects[2].entries) == ["vibrance", "saturation", "brightness", "contrast"]
    ensures EntryIds(AvailableEffects[3].entries) == ["blur", "grayscale", "sepia", "vintage"]
    ensures EntryIds(AvailableEffects[4].entries) == ["removeBackground", "blurBackground"]
    ensures EntryIds(AvailableEffects[5].entries) == ["resize800", "resize1200", "thumbnail"]
    ensures EntryIds(AvailableEffects[6].entries) == ["videoCompress", "generateThumbnail", "videoPreview"]
  {
  }

  /** The 22 effect identifiers, in catalogue order. */
  const EffectIds: seq<string> := ["autoCompress", "webpFormat", "avifFormat", "autoEnhance", "sharpen",
    "unsharpMask", "vibrance", "saturation", "brightness", "contrast", "blur",
    "grayscale", "sepia", "vintage", "removeBackground", "blurBackground",
    "resize800", "resize1200", "thumbnail", "videoCompress",
    "generateThumbnail", "videoPreview"]

  lemma EffectIdsDistinct()
    ensures |EffectIds| == 22 && Distinct(EffectIds)
  {
    forall i, j | 0 <= i < j < |EffectIds| ensures EffectIds[i] != EffectIds[j] {
    }
  }

  /** The catalogue's identifiers, in order. */
  lemma CatalogIdList()
    ensures CatalogIds(AvailableEffects) == EffectIds
  {
    var c := AvailableEffects;
    CatalogIdsAppend(c[..4], c[4..]);
    assert c[..4] + c[4..] == c;
    FirstCategoriesIds();
    LastCategoriesIds();
    assert EffectIds == EffectIds[..14] + EffectIds[14..];
  }

  /** The identifiers of a concatenation of category lists. */
  lemma {:induction false} CatalogIdsAppend(a: seq<Category>, b: seq<Category>)
    ensures CatalogIds(a + b) == CatalogIds(a) + CatalogIds(b)
  {
    if a != [] {
      assert (a + b)[1..] == a[1..] + b;
      CatalogIdsAppend(a[1..], b);
    } else {
      assert a + b == b;
    }
  }

  /** The identifiers of the first four categories. */
  lemma FirstCategoriesIds()
    ensures CatalogIds(AvailableEffects[..4]) == EffectIds[..14]
  {
    var c := AvailableEffects[..4];
    CategoryIds();
    assert CatalogIds(c[4..]) == [];
    assert CatalogIds(c[3..]) == EntryIds(c[3].entries) + CatalogIds(c[4..]);
    assert CatalogIds(c[2..]) == EntryIds(c[2].entries) + CatalogIds(c[3..]);
    assert CatalogIds(c[1..]) == EntryIds(c[1].entries) + CatalogIds(c[2..]);
    assert CatalogIds(c) == EntryIds(c[0].entries) + CatalogIds(c[1..]);
  }

  /** The identifiers of the last three categories. */
  lemma LastCategoriesIds()
    ensures CatalogIds(AvailableEffects[4..]) == EffectIds[14..]
  {
    var c := AvailableEffects;
    CategoryIds();
    assert CatalogIds(c[7..]) == [];
    assert CatalogIds(c[6..]) == EntryIds(c[6].entries) + CatalogIds(c[7..]);
    assert CatalogIds(c[5..]) == EntryIds(c[5].entries) + CatalogIds(c[6..]);
    assert CatalogIds(c[4..]) == EntryIds(c[4].entries) + CatalogIds(c[5..]);
  }

  /** The catalogue and the map name the same effects: 22 distinct
      identifiers in 7 categories, and the catalogue's identifiers are exactly
      the keys of the map. */
  lemma CatalogAgreesWithMap()
    ensures |AvailableEffects| == 7
    ensures |CatalogIds(AvailableEffects)| == 22 && Distinct(CatalogIds(AvailableEffects))
    ensures (set id | id in CatalogIds(AvailableEffects)) == EffectsMap.Keys
    ensures forall id :: id in CatalogIds(AvailableEffects) <==> id in EffectsMap
    ensures |EffectsMap| == 22
  {
    CatalogIdList();
    EffectIdsDistinct();
    DistinctCardinality(EffectIds);
    EffectIdsAreKeys();
  }

  /** The 22 identifiers are exactly the keys of the map. */
  lemma EffectIdsAreKeys()
    ensures (set id | id in EffectIds) == EffectsMap.Keys
  {
    forall id | id in EffectsMap ensures id in EffectIds {
      KeyIsEffectId(id);
    }
    forall id | id in EffectIds ensures id in EffectsMap {
      var i :| 0 <= i < |EffectIds| && EffectIds[i] == id;
      EffectIdIsKey(i);
    }
  }

  lemma KeyIsEffectId(id: string)
    requires id in EffectsMap
    ensures id in EffectIds
  {
  }

  lemma EffectIdIsKey(i: int)
    requires 0 <= i < |EffectIds|
    ensures EffectIds[i] in EffectsMap
  {
  }

  // ---------------------------------------------------------------------
  // What `effectsMap[effect]` reads

  /** `function name() { [native code] }`, the text `join` gives a built-in
      function. */
  function NativeFunction(name: string): string {
    "function " + name + "() { [native code] }"
  }

  /** The members every plain object inherits from `Object.prototype`. */
  const InheritedNames: seq<string> := ["constructor", "__proto__", "toString", "toLocaleString", "valueOf",
    "hasOwnProperty", "isPrototypeOf", "propertyIsEnumerable", "__defineGetter__", "__defineSetter__",
    "__lookupGetter__", "__lookupSetter__"]

  /** The string `join` turns an inherited member into: `constructor` is the
      `Object` function, `__proto__` is `Object.prototype` itself, and each
      other member is the built-in method of its own name. */
  function InheritedText(name: string): string {
    if name == "constructor" then NativeFunction("Object")
    else if name == "__proto__" then "[object Object]"
    else NativeFunction(name)
  }

  const InheritedMembers: map<string, string> := map name | name in InheritedNames :: InheritedText(name)

  /** Every property `effectsMap[name]` can read: its own keys, which
      shadow the inherited members, and the inherited members. */
  const ReadableProperties: map<string, string> := InheritedMembers + EffectsMap

  lemma NativeFunctionWellFormed(name: string)
    requires '/' !in name
    ensures WellFormedFragment(NativeFunction(name))
  {
    var head, tail := "function ", "() { [native code] }";
    assert '/' !in head && '/' !in tail;
    assert NativeFunction(name) == head + name + tail;
  }

  lemma InheritedNamesHaveNoSlash()
    ensures forall i | 0 <= i < |InheritedNames| :: '/' !in InheritedNames[i]
  {
  }

  /** The text of the `Object` function. */
  lemma ObjectFunctionText()
    ensures NativeFunction("Object") == "function Object() { [native code] }"
  {
    assert "function " + "Object" == "function Object";
    assert "() { [native code] }" == "() { " + "[native code] }";
    assert "function Object" + "() { " + "[native code] }" == "function Object() { [native code] }";
  }

  /** Every inherited member turns into a non-empty string without `/`. */
  lemma InheritedMembersWellFormed()
    ensures WellFormedTable(InheritedMembers)
  {
    InheritedNamesHaveNoSlash();
    forall id | id in InheritedMembers ensures WellFormedFragment(InheritedMembers[id]) {
      assert id in InheritedNames && InheritedMembers[id] == InheritedText(id);
      if id == "constructor" {
        NativeFunctionWellFormed("Object");
      } else if id == "__proto__" {
        assert '/' !in "[object Object]";
      } else {
        NativeFunctionWellFormed(id);
      }
    }
  }

  /** Over any table of own keys, the readable properties are the own keys
      and the inherited names, and an own key reads its own value. */
  lemma {:induction false} OwnKeysShadow(own: map<string, string>)
    ensures forall id :: id in InheritedMembers + own <==> id in own || id in InheritedMembers
    ensures forall id | id in own :: (InheritedMembers + own)[id] == own[id]
    ensures forall id | id !in own && id in InheritedMembers :: (InheritedMembers + own)[id] == InheritedMembers[id]
  {
  }

  /** An own key reads its own value. */
  lemma OwnKeyShadows(own: map<string, string>, id: string)
    requires id in own
    ensures id in InheritedMembers + own && (InheritedMembers + own)[id] == own[id]
  {
  }

  /** An inherited member that is no own key reads as inherited. */
  lemma InheritedShows(own: map<string, string>, id: string)
    requires id !in own && id in InheritedMembers
    ensures id in InheritedMembers + own && (InheritedMembers + own)[id] == InheritedMembers[id]
  {
  }

  /** `constructor` is inherited as the `Object` function. */
  lemma ConstructorIsInherited()
    ensures "constructor" in InheritedMembers && InheritedMembers["constructor"] == NativeFunction("Object")
  {
    assert InheritedNames[0] == "constructor";
  }

  /** Over well-formed own keys, every readable property is well formed. */
  lemma ReadableWellFormed(own: map<string, string>)
    requires WellFormedTable(own)
    ensures WellFormedTable(InheritedMembers + own)
  {
    InheritedMembersWellFormed();
    OwnKeysShadow(own);
  }

  /** The readable properties are the own keys and the inherited names; an
      own key reads its own fragment, and every property is well formed. */
  lemma ReadablePropertiesWellFormed()
    ensures WellFormedTable(ReadableProperties)
    ensures forall id :: id in ReadableProperties <==> id in EffectsMap || id in InheritedMembers
    ensures forall id | id in EffectsMap :: ReadableProperties[id] == EffectsMap[id]
  {
    FragmentsWellFormed();
    ReadableWellFormed(EffectsMap);
    OwnKeysShadow(EffectsMap);
  }

  /** A name that is neither an own key nor an inherited member is no
      property at all. */
  lemma NotAProperty(id: string)
    requires id !in EffectsMap && id !in InheritedNames
    ensures id !in ReadableProperties
  {
    OwnKeysShadow(EffectsMap);
  }

  // ---------------------------------------------------------------------
  // Compiling effect identifiers to a transformation string

  /** `obj[id]` on an object whose readable properties are `table`. */
  function Property(table: map<string, string>, id: string): Option<string> {
    if id in table then Some(table[id]) else None
  }

  /** `effects.map(effect => obj[effect])` */
  function LookupEach(table: map<string, string>, ids: seq<string>): seq<Option<string>> {
    if ids == [] then [] else [Property(table, ids[0])] + LookupEach(table, ids[1..])
  }

  /** `.filter(Boolean)`: keeps the present, non-empty strings, in order. */
  function KeepTruthy(xs: seq<Option<string>>): (r: seq<string>)
    ensures |r| <= |xs|
    ensures forall i | 0 <= i < |r| :: r[i] != ""
  {
    if xs == [] then []
    else (if Truthy(xs[0]) then [xs[0].value] else []) + KeepTruthy(xs[1..])
  }

  /** `transforms`: the lookup, filter, join pipeline of the POST handler,
      reading the properties in `table`. */
  function Transforms(table: map<string, string>, ids: seq<string>): string {
    Join(KeepTruthy(LookupEach(table, ids)), ",")
  }

  /** Reference definition: the fragments of the identifiers found in
      `table`, in selection order, one per occurrence. */
  function KnownFragments(table: map<string, string>, ids: seq<string>): seq<string> {
    if ids == [] then []
    else (if ids[0] in table then [table[ids[0]]] else []) + KnownFragments(table, ids[1..])
  }

  /** Mapping and then filtering is the same as keeping the identifiers
      found and taking their fragments. */
  lemma {:induction false} PipelineIsKnownFragments(table: map<string, string>, ids: seq<string>)
    requires WellFormedTable(table)
    ensures KeepTruthy(LookupEach(table, ids)) == KnownFragments(table, ids)
  {
    if ids != [] {
      PipelineIsKnownFragments(table, ids[1..]);
      assert LookupEach(table, ids)[1..] == LookupEach(table, ids[1..]);
    }
  }

  /** The transformation string is the comma-join of the fragments found. */
  lemma TransformsIsJoinOfKnown(table: map<string, string>, ids: seq<string>)
    requires WellFormedTable(table)
    ensures Transforms(table, ids) == Join(KnownFragments(table, ids), ",")
  {
    PipelineIsKnownFragments(table, ids);
  }

  /** Selection order is kept: the fragments of `a + b` are those of `a`
      followed by those of `b`. */
  lemma {:induction false} KnownFragmentsConcat(table: map<string, string>, a: seq<string>, b: seq<string>)
    ensures KnownFragments(table, a + b) == KnownFragments(table, a) + KnownFragments(table, b)
  {
    if a != [] {
      assert (a + b)[1..] == a[1..] + b;
      KnownFragmentsConcat(table, a[1..], b);
    } else {
      assert a + b == b;
    }
  }

  /** Every fragment produced comes from the table and is well formed. */
  lemma {:induction false} KnownFragmentsFromTable(table: map<string, string>, ids: seq<string>)
    requires WellFormedTable(table)
    ensures forall f | f in KnownFragments(table, ids) :: f in table.Values && WellFormedFragment(f)
  {
    if ids != [] {
      KnownFragmentsFromTable(table, ids[1..]);
    }
  }

  /** No fragment at all exactly when no identifier is found. */
  lemma {:induction false} KnownFragmentsEmptyIff(table: map<string, string>, ids: seq<string>)
    ensures KnownFragments(table, ids) == [] <==> forall i | 0 <= i < |ids| :: ids[i] !in table
  {
    if ids != [] {
      KnownFragmentsEmptyIff(table, ids[1..]);
      assert forall i | 1 <= i < |ids| :: ids[i] == ids[1..][i - 1];
    }
  }

  /** An identifier that is not found contributes nothing, wherever it
      stands. */
  lemma UnknownContributesNothing(table: map<string, string>, a: seq<string>, id: string, b: seq<string>)
    requires WellFormedTable(table) && id !in table
    ensures Transforms(table, a + [id] + b) == Transforms(table, a + b)
  {
    TransformsIsJoinOfKnown(table, a + [id] + b);
    TransformsIsJoinOfKnown(table, a + b);
    assert [id][1..] == [];
    assert KnownFragments(table, [id]) == [];
    KnownFragmentsConcat(table, a, [id]);
    assert KnownFragments(table, a + [id]) == KnownFragments(table, a) + [] == KnownFragments(table, a);
    KnownFragmentsConcat(table, a + [id], b);
    KnownFragmentsConcat(table, a, b);
  }

  /** There is no de-duplication: an identifier selected twice, next to
      each other or with other identifiers `m` between, contributes its
      fragment at both places. */
  lemma NoDeduplication(table: map<string, string>, a: seq<string>, id: string, m: seq<string>, b: seq<string>)
    requires id in table
    ensures KnownFragments(table, a + [id] + m + [id] + b)
         == KnownFragments(table, a) + [table[id]] + KnownFragments(table, m) + [table[id]] + KnownFragments(table, b)
  {
    assert [id][1..] == [];
    assert KnownFragments(table, [id]) == [table[id]];
    KnownFragmentsConcat(table, a + [id] + m + [id], b);
    KnownFragmentsConcat(table, a + [id] + m, [id]);
    KnownFragmentsConcat(table, a + [id], m);
    KnownFragmentsConcat(table, a, [id]);
  }

  /** One identifier found: its fragment, and nothing else. */
  lemma KnownFragmentsOne(table: map<string, string>, a: string)
    requires a in table
    ensures KnownFragments(table, [a]) == [table[a]]
  {
    assert [a][1..] == [];
  }

  /** A found identifier followed by one that is not: just the first
      fragment. */
  lemma KnownFragmentsFoundThenNot(table: map<string, string>, a: string, b: string)
    requires a in table && b !in table
    ensures KnownFragments(table, [a, b]) == [table[a]]
  {
    assert [a, b][1..] == [b] && [b][1..] == [];
    assert KnownFragments(table, [b]) == [];
  }

  /** The transformation string is empty exactly when no requested
      identifier is found; it never holds `/`, and when something is found
      it starts with the fragment of the first identifier found. */
  lemma TransformsEmptyIff(table: map<string, string>, ids: seq<string>)
    requires WellFormedTable(table)
    ensures Transforms(table, ids) == "" <==> forall i | 0 <= i < |ids| :: ids[i] !in table
    ensures '/' !in Transforms(table, ids)
    ensures KnownFragments(table, ids) != [] ==> StartsWith(Transforms(table, ids), KnownFragments(table, ids)[0])
  {
    TransformsIsJoinOfKnown(table, ids);
    KnownFragmentsFromTable(table, ids);
    var fs := KnownFragments(table, ids);
    assert forall i | 0 <= i < |fs| :: fs[i] in fs;
    JoinEmptyIff(fs, ",");
    KnownFragmentsEmptyIff(table, ids);
    JoinHasNoSlash(fs);
    if fs != [] {
      JoinStartsWithFirst(fs, ",");
    }
  }

  lemma {:induction false} JoinHasNoSlash(parts: seq<string>)
    requires forall p | p in parts :: '/' !in p
    ensures '/' !in Join(parts, ",")
  {
    if |parts| > 1 {
      assert parts[0] in parts;
      assert forall p | p in parts[1..] :: p in parts;
      JoinHasNoSlash(parts[1..]);
    }
  }

  /** Requests that each compile to something compose: the string for
      `a + b` is the string for `a`, a comma, and the string for `b`. */
  lemma TransformsConcat(table: map<string, string>, a: seq<string>, b: seq<string>)
    requires WellFormedTable(table)
    requires Transforms(table, a) != "" && Transforms(table, b) != ""
    ensures Transforms(table, a + b) == Transforms(table, a) + "," + Transforms(table, b)
  {
    TransformsIsJoinOfKnown(table, a);
    TransformsIsJoinOfKnown(table, b);
    TransformsIsJoinOfKnown(table, a + b);
    KnownFragmentsConcat(table, a, b);
    JoinConcat(KnownFragments(table, a), KnownFragments(table, b), ",");
  }

  /** Every catalogued effect, requested alone, compiles to its fragment,
      through the object's properties as well as through its own keys. */
  lemma CatalogEffectsCompile(id: string)
    requires id in CatalogIds(AvailableEffects)
    ensures id in EffectsMap && EffectsMap[id] != ""
    ensures Transforms(EffectsMap, [id]) == EffectsMap[id]
    ensures Transforms(ReadableProperties, [id]) == EffectsMap[id]
  {
    CatalogAgreesWithMap();
    assert id in EffectsMap;
    FragmentsWellFormed();
    ReadablePropertiesWellFormed();
    TransformsIsJoinOfKnown(EffectsMap, [id]);
    TransformsIsJoinOfKnown(ReadableProperties, [id]);
    KnownFragmentsOne(EffectsMap, id);
    KnownFragmentsOne(ReadableProperties, id);
  }

  /** On identifiers that are no inherited member's name, reading the
      object's properties and reading its own keys agree. */
  lemma {:induction false} PropertiesAgreeOffPrototype(own: map<string, string>, ids: seq<string>)
    requires forall i | 0 <= i < |ids| :: ids[i] !in InheritedMembers
    ensures LookupEach(InheritedMembers + own, ids) == LookupEach(own, ids)
    ensures Transforms(InheritedMembers + own, ids) == Transforms(own, ids)
  {
    if ids != [] {
      assert forall i | 0 <= i < |ids[1..]| :: ids[1..][i] == ids[i + 1];
      PropertiesAgreeOffPrototype(own, ids[1..]);
    }
  }

  // ---------------------------------------------------------------------
  // Delivery URLs

  /** `mediaType = "image"`: the default when the field is absent. */
  function MediaTypeOrDefault(mediaType: Option<string>): string {
    if mediaType.Some? then mediaType.value else "image"
  }

  /** `mediaType === "video" ? "video" : "image"` */
  function MediaPath(mediaType: string): (p: string)
    ensures p == "video" || p == "image"
  {
    if mediaType == "video" then "video" else "image"
  }

  /** `https://res.cloudinary.com/{cloud}/{path}/upload/`, the part both URLs share. */
  function UploadPrefix(cloudName: string, mediaPath: string): string {
    "https://res.cloudinary.com/" + cloudName + "/" + mediaPath + "/upload/"
  }

  /** `originalUrl` */
  function OriginalUrl(cloudName: string, mediaPath: string, publicId: string): string {
    UploadPrefix(cloudName, mediaPath) + publicId
  }

  /** `transformedUrl` */
  function TransformedUrl(cloudName: string, mediaPath: string, transforms: string, publicId: string): string {
    UploadPrefix(cloudName, mediaPath) + transforms + "/" + publicId
  }

  /** The transformed URL is the original one with `{transforms}/` inserted
      just before the public id. */
  lemma TransformedIsOriginalWithInsertion(cloudName: string, mediaPath: string, transforms: string, publicId: string)
    ensures TransformedUrl(cloudName, mediaPath, transforms, publicId)
         == OriginalUrl(cloudName, mediaPath, publicId)[..|UploadPrefix(cloudName, mediaPath)|] + transforms + "/" + publicId
    ensures OriginalUrl(cloudName, mediaPath, publicId)[|UploadPrefix(cloudName, mediaPath)|..] == publicId
  {
    var p := UploadPrefix(cloudName, mediaPath);
    assert (p + publicId)[..|p|] == p;
  }

  /** Splits `s` at its first occurrence of `c`. */
  function SplitAtFirst(s: string, c: char): Option<(string, string)> {
    if s == [] then None
    else if s[0] == c then Some(([], s[1..]))
    else match SplitAtFirst(s[1..], c)
      case None => None
      case Some(parts) => Some(([s[0]] + parts.0, parts.1))
  }

  lemma {:induction false} SplitAtFirstOf(a: string, c: char, b: string)
    requires c !in a
    ensures SplitAtFirst(a + [c] + b, c) == Some((a, b))
  {
    if a == [] {
      assert a + [c] + b == [c] + b;
      assert ([c] + b)[1..] == b;
    } else {
      var s := a + [c] + b;
      assert s[0] == a[0] && a[0] in a;
      assert s[1..] == a[1..] + [c] + b;
      SplitAtFirstOf(a[1..], c, b);
      assert [a[0]] + a[1..] == a;
    }
  }

  /** Reads a transformed URL back into its transformation string and public
      id, given the cloud name and media path it was built for. */
  function ParseTransformedUrl(url: string, cloudName: string, mediaPath: string): Option<(string, string)> {
    var prefix := UploadPrefix(cloudName, mediaPath);
    if StartsWith(url, prefix) then SplitAtFirst(url[|prefix|..], '/') else None
  }

  /** Round trip: a transformation string without `/` (which every compiled
      string is) and the public id can be read back from the transformed
      URL, even when the public id contains `/` itself. */
  lemma TransformedUrlRoundTrip(cloudName: string, mediaPath: string, transforms: string, publicId: string)
    requires '/' !in transforms
    ensures ParseTransformedUrl(TransformedUrl(cloudName, mediaPath, transforms, publicId), cloudName, mediaPath)
         == Some((transforms, publicId))
  {
    var prefix := UploadPrefix(cloudName, mediaPath);
    var url := TransformedUrl(cloudName, mediaPath, transforms, publicId);
    assert url == prefix + (transforms + ['/'] + publicId);
    assert url[..|prefix|] == prefix;
    assert url[|prefix|..] == transforms + ['/'] + publicId;
    SplitAtFirstOf(transforms, '/', publicId);
  }

  /** `effects.includes("autoCompress") ? "60-80%" : "0%"` */
  function EstimatedCompression(effects: seq<string>): string {
    if "autoCompress" in effects then "60-80%" else "0%"
  }

  // ---------------------------------------------------------------------
  // The POST handler

  /** The JSON body's fields; `None` stands for an absent field (for
      `publicId` and `effects`, a null one is refused alike). */
  datatype EffectsRequest = EffectsRequest(publicId: Option<string>, effects: Option<seq<string>>, mediaType: Option<string>)

  datatype EffectsResponse =
    | Rejected(status: nat, error: string)
    | Applied(originalUrl: string, transformedUrl: string, effects: seq<string>, publicId: string,
              mediaType: string, estimatedCompression: string, transformationString: string)

  /** POST, compiling through the properties in `table`. `body` is `None`
      when the request body is not JSON, which makes `request.json()` throw
      into the catch block. */
  function PostWith(table: map<string, string>, userId: Option<string>, cloudName: Option<string>,
                    body: Option<EffectsRequest>): (r: EffectsResponse)
    ensures r.Rejected? ==> r.status in {400, 401, 500}
  {
    if !Truthy(userId) then Rejected(401, "Unauthorized")
    else if body.None? then Rejected(500, "Internal server error")
    else if !Truthy(body.value.publicId) then Rejected(400, "Public ID is required")
    else if body.value.effects.None? || |body.value.effects.value| == 0 then Rejected(400, "No effects specified")
    else if !Truthy(cloudName) then Rejected(500, "Cloudinary not configured")
    else
      var effects := body.value.effects.value;
      var publicId := body.value.publicId.value;
      var transforms := Transforms(table, effects);
      if transforms == "" then Rejected(400, "No valid effects found")
      else
        var mediaType := MediaTypeOrDefault(body.value.mediaType);
        var mediaPath := MediaPath(mediaType);
        Applied(OriginalUrl(cloudName.value, mediaPath, publicId),
                TransformedUrl(cloudName.value, mediaPath, transforms, publicId),
                effects, publicId, mediaType, EstimatedCompression(effects), transforms)
  }

  /** POST as written: `effectsMap[effect]` reads every property of the
      object, inherited ones included. */
  function Post(userId: Option<string>, cloudName: Option<string>, body: Option<EffectsRequest>): EffectsResponse {
    PostWith(ReadableProperties, userId, cloudName, body)
  }

  /** POST as evidently intended: only the map's own keys are effects. */
  function PostIntended(userId: Option<string>, cloudName: Option<string>, body: Option<EffectsRequest>): EffectsResponse {
    PostWith(EffectsMap, userId, cloudName, body)
  }

  /** The checks run in a fixed order and the first failing one decides the
      response. */
  lemma PostCheckOrder(table: map<string, string>, userId: Option<string>, cloudName: Option<string>,
                       body: Option<EffectsRequest>)
    ensures !Truthy(userId) ==> PostWith(table, userId, cloudName, body) == Rejected(401, "Unauthorized")
    ensures Truthy(userId) && body.None? ==> PostWith(table, userId, cloudName, body) == Rejected(500, "Internal server error")
    ensures Truthy(userId) && body.Some? && !Truthy(body.value.publicId)
            ==> PostWith(table, userId, cloudName, body) == Rejected(400, "Public ID is required")
    ensures Truthy(userId) && body.Some? && Truthy(body.value.publicId)
            && (body.value.effects.None? || body.value.effects.value == [])
            ==> PostWith(table, userId, cloudName, body) == Rejected(400, "No effects specified")
    ensures Truthy(userId) && body.Some? && Truthy(body.value.publicId)
            && body.value.effects.Some? && body.value.effects.value != [] && !Truthy(cloudName)
            ==> PostWith(table, userId, cloudName, body) == Rejected(500, "Cloudinary not configured")
  {
  }

  /** All checks passed and some requested identifier is found in `table`:
      exactly then is the request applied; when none is found the answer is
      400 "No valid effects found". */
  lemma PostAppliedIff(table: map<string, string>, userId: Option<string>, cloudName: Option<string>,
                       body: Option<EffectsRequest>)
    requires WellFormedTable(table)
    ensures PostWith(table, userId, cloudName, body).Applied? <==>
              && Truthy(userId) && body.Some? && Truthy(body.value.publicId)
              && body.value.effects.Some?
              && Truthy(cloudName)
              && exists i | 0 <= i < |body.value.effects.value| :: body.value.effects.value[i] in table
    ensures
      && Truthy(userId) && body.Some? && Truthy(body.value.publicId)
      && body.value.effects.Some? && body.value.effects.value != [] && Truthy(cloudName)
      && (forall i | 0 <= i < |body.value.effects.value| :: body.value.effects.value[i] !in table)
      ==> PostWith(table, userId, cloudName, body) == Rejected(400, "No valid effects found")
  {
    if body.Some? && body.value.effects.Some? {
      TransformsEmptyIff(table, body.value.effects.value);
    }
  }

  /** As written, a request that passes the checks is applied exactly when
      it names an effect or an inherited member of the object. */
  lemma AsWrittenAppliedIff(userId: Option<string>, cloudName: Option<string>, body: Option<EffectsRequest>)
    ensures Post(userId, cloudName, body).Applied? <==>
              && Truthy(userId) && body.Some? && Truthy(body.value.publicId)
              && body.value.effects.Some?
              && Truthy(cloudName)
              && exists i | 0 <= i < |body.value.effects.value| ::
                   body.value.effects.value[i] in EffectsMap || body.value.effects.value[i] in InheritedMembers
  {
    ReadablePropertiesWellFormed();
    PostAppliedIff(ReadableProperties, userId, cloudName, body);
  }

  /** As intended, a request that passes the checks is applied exactly when
      it names an effect of the map. */
  lemma IntendedAppliedIff(userId: Option<string>, cloudName: Option<string>, body: Option<EffectsRequest>)
    ensures PostIntended(userId, cloudName, body).Applied? <==>
              && Truthy(userId) && body.Some? && Truthy(body.value.publicId)
              && body.value.effects.Some?
              && Truthy(cloudName)
              && exists i | 0 <= i < |body.value.effects.value| :: body.value.effects.value[i] in EffectsMap
  {
    FragmentsWellFormed();
    PostAppliedIff(EffectsMap, userId, cloudName, body);
  }

  /** What a successful response holds: the comma-join of the fragments
      found, in selection order, each an entry of `table`, non-empty; the
      echoed request fields (the raw effect list, identifiers not found
      included); the media path, `video` exactly for media type `video`;
      URLs of the shape the template strings build, from which the
      transformation string and public id read back; and a compression
      estimate of 60-80% exactly when `autoCompress` was asked for. */
  lemma PostAppliedContents(table: map<string, string>, userId: Option<string>, cloudName: Option<string>,
                            body: Option<EffectsRequest>)
    requires WellFormedTable(table)
    requires PostWith(table, userId, cloudName, body).Applied?
    ensures var r := PostWith(table, userId, cloudName, body);
      var path := if r.mediaType == "video" then "video" else "image";
      && body.Some? && body.value.effects.Some? && cloudName.Some?
      && r.effects == body.value.effects.value
      && r.publicId == body.value.publicId.value
      && r.mediaType == (if body.value.mediaType.Some? then body.value.mediaType.value else "image")
      && r.transformationString == Join(KnownFragments(table, r.effects), ",")
      && (forall f | f in KnownFragments(table, r.effects) :: f in table.Values)
      && r.transformationString != ""
      && r.originalUrl == "https://res.cloudinary.com/" + cloudName.value + "/" + path + "/upload/" + r.publicId
      && r.transformedUrl == "https://res.cloudinary.com/" + cloudName.value + "/" + path + "/upload/"
                             + r.transformationString + "/" + r.publicId
      && ParseTransformedUrl(r.transformedUrl, cloudName.value, path) == Some((r.transformationString, r.publicId))
      && (r.estimatedCompression == "60-80%" <==> "autoCompress" in r.effects)
      && (r.estimatedCompression == "0%" <==> "autoCompress" !in r.effects)
  {
    var effects := body.value.effects.value;
    TransformsIsJoinOfKnown(table, effects);
    TransformsEmptyIff(table, effects);
    KnownFragmentsFromTable(table, effects);
    var r := PostWith(table, userId, cloudName, body);
    TransformedUrlRoundTrip(cloudName.value, MediaPath(r.mediaType), r.transformationString, r.publicId);
  }

  /** Asking for `autoCompress` always gets past the "No valid effects"
      check, so once the earlier checks pass the request is applied with a
      60-80% estimate. */
  lemma AutoCompressIsApplied(table: map<string, string>, userId: Option<string>, cloudName: Option<string>,
                              body: Option<EffectsRequest>)
    requires WellFormedTable(table) && "autoCompress" in table
    requires Truthy(userId) && Truthy(cloudName) && body.Some? && Truthy(body.value.publicId)
    requires body.value.effects.Some? && "autoCompress" in body.value.effects.value
    ensures PostWith(table, userId, cloudName, body).Applied?
    ensures PostWith(table, userId, cloudName, body).estimatedCompression == "60-80%"
  {
    var effects := body.value.effects.value;
    var i :| 0 <= i < |effects| && effects[i] == "autoCompress";
    TransformsEmptyIff(table, effects);
  }

  /** The made-up names of the scenarios below are not properties. */
  lemma BogusEffectIsNoProperty()
    ensures "bogusEffect" !in ReadableProperties
  {
    BogusEffectIsNoKey();
    NotAProperty("bogusEffect");
  }

  lemma BogusEffectIsNoKey()
    ensures "bogusEffect" !in EffectsMap
  {
  }

  lemma BogusOnlyIsNoProperty()
    ensures "bogusOnly" !in ReadableProperties
  {
    BogusOnlyIsNoKey();
    NotAProperty("bogusOnly");
  }

  lemma BogusOnlyIsNoKey()
    ensures "bogusOnly" !in EffectsMap
  {
  }

  /** A known and an unknown identifier on an image: only the known
      fragment appears. */
  lemma ScenarioKnownAndUnknown()
    ensures var r := Post(Some("user_1"), Some("demo"),
                          Some(EffectsRequest(Some("sample"), Some(["autoCompress", "bogusEffect"]), None)));
      && r.Applied?
      && r.transformationString == "q_auto,f_auto"
      && r.transformedUrl == TransformedUrl("demo", "image", "q_auto,f_auto", "sample")
      && r.originalUrl == OriginalUrl("demo", "image", "sample")
      && r.effects == ["autoCompress", "bogusEffect"]
      && r.mediaType == "image"
      && r.estimatedCompression == "60-80%"
  {
    ReadablePropertiesWellFormed();
    BogusEffectIsNoProperty();
    AutoCompressIsAProperty();
    KnownAndUnknown(ReadableProperties);
  }

  lemma AutoCompressIsAProperty()
    ensures "autoCompress" in ReadableProperties && ReadableProperties["autoCompress"] == "q_auto,f_auto"
  {
    AutoCompressIsKey();
    OwnKeyShadows(EffectsMap, "autoCompress");
  }

  lemma AutoCompressIsKey()
    ensures "autoCompress" in EffectsMap && EffectsMap["autoCompress"] == "q_auto,f_auto"
  {
  }

  /** The scenario above, over any table that reads `autoCompress` as
      `q_auto,f_auto` and lacks `bogusEffect`. */
  lemma KnownAndUnknown(table: map<string, string>)
    requires WellFormedTable(table) && "bogusEffect" !in table
    requires "autoCompress" in table && table["autoCompress"] == "q_auto,f_auto"
    ensures var r := PostWith(table, Some("user_1"), Some("demo"),
                              Some(EffectsRequest(Some("sample"), Some(["autoCompress", "bogusEffect"]), None)));
      && r.Applied?
      && r.transformationString == "q_auto,f_auto"
      && r.transformedUrl == TransformedUrl("demo", "image", "q_auto,f_auto", "sample")
      && r.originalUrl == OriginalUrl("demo", "image", "sample")
      && r.effects == ["autoCompress", "bogusEffect"]
      && r.mediaType == "image"
      && r.estimatedCompression == "60-80%"
  {
    var body := Some(EffectsRequest(Some("sample"), Some(["autoCompress", "bogusEffect"]), None));
    KnownFragmentsFoundThenNot(table, "autoCompress", "bogusEffect");
    AutoCompressIsApplied(table, Some("user_1"), Some("demo"), body);
    PostAppliedContents(table, Some("user_1"), Some("demo"), body);
  }

  /** Only unknown identifiers: 400 "No valid effects found". */
  lemma ScenarioOnlyUnknown()
    ensures Post(Some("user_1"), Some("demo"), Some(EffectsRequest(Some("sample"), Some(["bogusOnly"]), None)))
         == Rejected(400, "No valid effects found")
  {
    ReadablePropertiesWellFormed();
    BogusOnlyIsNoProperty();
    OnlyUnknown(ReadableProperties, "bogusOnly");
  }

  /** The scenario above, over any table and any one identifier it lacks. */
  lemma OnlyUnknown(table: map<string, string>, id: string)
    requires WellFormedTable(table) && id !in table
    ensures PostWith(table, Some("user_1"), Some("demo"), Some(EffectsRequest(Some("sample"), Some([id]), None)))
         == Rejected(400, "No valid effects found")
  {
    PostAppliedIff(table, Some("user_1"), Some("demo"), Some(EffectsRequest(Some("sample"), Some([id]), None)));
  }

  // ---------------------------------------------------------------------
  // The GET handler

  datatype CatalogResponse =
    | CatalogRejected(status: nat, error: string)
    | Catalog(effects: seq<Category>, imageFormats: seq<string>, videoFormats: seq<string>)

  /** GET: the catalogue for a signed-in user, 401 otherwise. Every
      identifier it lists compiles to a fragment, and it lists every key. */
  function Get(userId: Option<string>): (r: CatalogResponse)
    ensures r.Catalog? <==> Truthy(userId)
    ensures r.CatalogRejected? ==> r == CatalogRejected(401, "Unauthorized")
    ensures r.Catalog? ==> (set id | id in CatalogIds(r.effects)) == EffectsMap.Keys
    ensures r.Catalog? ==> r.imageFormats == SupportedImageFormats && r.videoFormats == SupportedVideoFormats
  {
    CatalogAgreesWithMap();
    if !Truthy(userId) then CatalogRejected(401, "Unauthorized")
    else Catalog(AvailableEffects, SupportedImageFormats, SupportedVideoFormats)
  }

  /** The formats GET lists: six image and six video extensions, none
      repeated and none in both lists; the two format conversions of the
      map produce listed image formats. */
  lemma SupportedFormatsListed()
    ensures |SupportedImageFormats| == 6 && Distinct(SupportedImageFormats)
    ensures |SupportedVideoFormats| == 6 && Distinct(SupportedVideoFormats)
    ensures forall f | f in SupportedImageFormats :: f !in SupportedVideoFormats
    ensures EffectsMap["webpFormat"] == "f_" + SupportedImageFormats[4]
    ensures EffectsMap["avifFormat"] == "f_" + SupportedImageFormats[5]
  {
  }

  // ---------------------------------------------------------------------
  // The lookup as written and as intended

  /** `constructor` is no own key, but a readable property: the `Object`
      function. */
  lemma ConstructorIsAProperty()
    ensures "constructor" !in EffectsMap
    ensures "constructor" in ReadableProperties && ReadableProperties["constructor"] == NativeFunction("Object")
  {
    ConstructorIsNoKey();
    ConstructorIsInherited();
    InheritedShows(EffectsMap, "constructor");
  }

  lemma ConstructorIsNoKey()
    ensures "constructor" !in EffectsMap
  {
  }

  /** `constructor` is no effect, yet as written it survives the filter and
      the request is applied with the `Object` function's text as its
      transformation string; as intended it is refused with "No valid
      effects found". */
  lemma InheritedNameIsApplied()
    ensures "constructor" !in EffectsMap
    ensures var body := Some(EffectsRequest(Some("sample"), Some(["constructor"]), None));
      && Post(Some("user_1"), Some("demo"), body).Applied?
      && Post(Some("user_1"), Some("demo"), body).transformationString == "function Object() { [native code] }"
      && PostIntended(Some("user_1"), Some("demo"), body) == Rejected(400, "No valid effects found")
  {
    ConstructorIsNoKey();
    FragmentsWellFormed();
    ConstructorSlipsThrough(EffectsMap);
    ObjectFunctionText();
    OnlyUnknown(EffectsMap, "constructor");
  }

  /** The finding above, over any well-formed table of own keys that lacks
      `constructor`. */
  lemma ConstructorSlipsThrough(own: map<string, string>)
    requires WellFormedTable(own) && "constructor" !in own
    ensures var body := Some(EffectsRequest(Some("sample"), Some(["constructor"]), None));
      && PostWith(InheritedMembers + own, Some("user_1"), Some("demo"), body).Applied?
      && PostWith(InheritedMembers + own, Some("user_1"), Some("demo"), body).transformationString
         == NativeFunction("Object")
  {
    ReadableWellFormed(own);
    ConstructorIsInherited();
    InheritedShows(own, "constructor");
    OneKnown(InheritedMembers + own, "constructor");
  }

  /** One identifier found in a well-formed table: the request is applied
      with that identifier's entry as its transformation string. */
  lemma OneKnown(table: map<string, string>, id: string)
    requires WellFormedTable(table) && id in table
    ensures var r := PostWith(table, Some("user_1"), Some("demo"), Some(EffectsRequest(Some("sample"), Some([id]), None)));
      r.Applied? && r.transformationString == table[id]
  {
    TransformsIsJoinOfKnown(table, [id]);
    KnownFragmentsOne(table, id);
    assert WellFormedFragment(table[id]);
  }
}
