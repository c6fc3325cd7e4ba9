/**
 * NIFMaterialLoader::getMaterial: the decisions it takes for a tri-shape's
 * property list -- which properties it uses, which texture file it names,
 * whether an existing material is shared, and how the new material's alpha
 * handling is set up. The Ogre material manager and the process-wide
 * texture-name -> material-name multimap are the state of MaterialRegistry.
 */
module MaterialLoader {
  import opened Wrappers
  import opened NifRecords

  /* ---------------- property scan ---------------- */

  /** The three property kinds getMaterial looks for. */
  datatype Kind = TexturingKind | MaterialKind | AlphaKind

  predicate OfKind(p: Option<Property>, k: Kind) {
    p.Some? &&
    match k
    case TexturingKind => p.value.Texturing?
    case MaterialKind => p.value.Material?
    case AlphaKind => p.value.AlphaProperty?
  }

  /** The properties found so far (t, m, a) and the record names of skipped ones. */
  datatype Scan = Scan(t: Option<Property>, m: Option<Property>, a: Option<Property>, skipped: seq<string>)

  function Slot(s: Scan, k: Kind): Option<Property> {
    match k
    case TexturingKind => s.t
    case MaterialKind => s.m
    case AlphaKind => s.a
  }

  /** One iteration of the scan loop: empty entries are ignored, other kinds are skipped with a warning. */
  function ScanStep(s: Scan, p: Option<Property>): Scan {
    match p
    case None => s
    case Some(Texturing(_)) => s.(t := p)
    case Some(Material(_)) => s.(m := p)
    case Some(AlphaProperty(_, _)) => s.(a := p)
    case Some(OtherProperty(recName)) => s.(skipped := s.skipped + [recName])
  }

  /** The state of the scan after the list `ps`. */
  function ScanOf(ps: seq<Option<Property>>): Scan {
    if ps == [] then Scan(None, None, None, [])
    else ScanStep(ScanOf(ps[..|ps| - 1]), ps[|ps| - 1])
  }

  /**
   * For each kind, the scan keeps the LAST property of that kind in list
   * order, and keeps none exactly when the list holds none of that kind.
   */
  lemma {:induction false} ScanLastWins(ps: seq<Option<Property>>, k: Kind)
    ensures Slot(ScanOf(ps), k).Some? ==> OfKind(Slot(ScanOf(ps), k), k)
    ensures Slot(ScanOf(ps), k).None? <==> forall i :: 0 <= i < |ps| ==> !OfKind(ps[i], k)
    ensures forall i :: 0 <= i < |ps| && OfKind(ps[i], k) && (forall j :: i < j < |ps| ==> !OfKind(ps[j], k))
              ==> Slot(ScanOf(ps), k) == ps[i]
  {
    if ps != [] {
      var init := ps[..|ps| - 1];
      ScanLastWins(init, k);
      assert forall i :: 0 <= i < |init| ==> init[i] == ps[i];
    }
  }

  /** The record names of the properties of no handled kind, in list order. */
  function OtherNames(ps: seq<Option<Property>>): seq<string> {
    if ps == [] then []
    else (if ps[0].Some? && ps[0].value.OtherProperty? then [ps[0].value.recName] else []) + OtherNames(ps[1..])
  }

  lemma {:induction false} OtherNamesSnoc(ps: seq<Option<Property>>, p: Option<Property>)
    ensures OtherNames(ps + [p]) == OtherNames(ps) + (if p.Some? && p.value.OtherProperty? then [p.value.recName] else [])
  {
    if ps != [] {
      assert (ps + [p])[1..] == ps[1..] + [p];
      OtherNamesSnoc(ps[1..], p);
    } else {
      assert ps + [p] == [p];
    }
  }

  /** Every property of an unhandled kind produces one warning, in list order. */
  lemma {:induction false} ScanSkipsOthers(ps: seq<Option<Property>>)
    ensures ScanOf(ps).skipped == OtherNames(ps)
  {
    if ps != [] {
      var init := ps[..|ps| - 1];
      ScanSkipsOthers(init);
      assert ps == init + [ps[|ps| - 1]];
      OtherNamesSnoc(init, ps[|ps| - 1]);
    }
  }

  /** The property-list loop of getMaterial. */
  method ScanProperties(ps: seq<Option<Property>>) returns (s: Scan)
    ensures s == ScanOf(ps)
  {
    s := Scan(None, None, None, []);
    var i := 0;
    while i < |ps|
      invariant 0 <= i <= |ps|
      invariant s == ScanOf(ps[..i])
    {
      assert ps[..i + 1][..i] == ps[..i];
      match ps[i] {
        case None =>
        case Some(pr) =>
          if pr.Texturing? {
            s := s.(t := ps[i]);
          } else if pr.Material? {
            s := s.(m := ps[i]);
          } else if pr.AlphaProperty? {
            s := s.(a := ps[i]);
          } else {
            s := s.(skipped := s.skipped + [pr.recName]);
          }
      }
      i := i + 1;
    }
    assert ps[..i] == ps;
  }

  /* ---------------- texture name ---------------- */

  /** std::string::rfind for one character: the last index of `c`, or -1 (npos). */
  function RFind(s: string, c: char): (r: int)
    ensures -1 <= r < |s|
    ensures r == -1 <==> c !in s
    ensures r >= 0 ==> s[r] == c && forall j :: r < j < |s| ==> s[j] != c
  {
    if s == [] then -1
    else if s[|s| - 1] == c then |s| - 1
    else
      var r := RFind(s[..|s| - 1], c);
      assert forall j :: 0 <= j < |s| - 1 ==> s[..|s| - 1][j] == s[j];
      r
  }

  const TexturePrefix := "textures\\"

  /** The message of the std::out_of_range that std::string::replace throws for a position past the end. */
  const ReplaceOutOfRange := "basic_string::replace"

  /**
   * The file name of an external texture: under "textures\", and when no
   * resource of that name exists, with everything from the last '.' on
   * replaced by ".dds". Without any '.' the replace is handed npos and throws.
   */
  function ResolveTexture(filename: string, resources: set<string>): (r: Result<string, string>)
    ensures r.Failure? <==> TexturePrefix + filename !in resources && '.' !in filename
    ensures TexturePrefix + filename in resources ==> r == Success(TexturePrefix + filename)
    ensures r.Success? && TexturePrefix + filename !in resources ==>
      var texName := TexturePrefix + filename;
      exists p :: 0 <= p < |texName| && texName[p] == '.' && '.' !in texName[p + 1..] && r.value == texName[..p] + ".dds"
  {
    var texName := TexturePrefix + filename;
    if texName in resources then Success(texName)
    else
      var pos := RFind(texName, '.');
      PrefixHasNoDot(filename);
      if pos < 0 then Failure(ReplaceOutOfRange)
      else
        NoDotAfter(texName, pos);
        Success(texName[..pos] + ".dds")
  }

  lemma PrefixHasNoDot(filename: string)
    ensures '.' in filename <==> '.' in TexturePrefix + filename
  {
    var texName := TexturePrefix + filename;
    assert forall j :: 0 <= j < |filename| ==> texName[|TexturePrefix| + j] == filename[j];
    assert '.' !in TexturePrefix;
  }

  lemma NoDotAfter(s: string, pos: nat)
    requires pos < |s| && forall j :: pos < j < |s| ==> s[j] != '.'
    ensures '.' !in s[pos + 1..]
  {
    var t := s[pos + 1..];
    assert forall j :: 0 <= j < |t| ==> t[j] == s[pos + 1 + j];
  }

  /** A .tga reference whose file is missing is looked up as the .dds of the same name. */
  lemma TgaBecomesDds(stem: string, resources: set<string>)
    requires TexturePrefix + stem + ".tga" !in resources
    ensures ResolveTexture(stem + ".tga", resources) == Success(TexturePrefix + stem + ".dds")
  {
    var texName := TexturePrefix + (stem + ".tga");
    assert texName == TexturePrefix + stem + ".tga";
    var pos := RFind(texName, '.');
    assert texName[|texName| - 4] == '.';
    assert pos == |texName| - 4;
    assert texName[..pos] == TexturePrefix + stem;
  }

  /** The kept texturing property has slot 0 in use, naming an external file. */
  predicate NamesExternalTexture(t: Option<Property>) {
    t.Some? && t.value.Texturing? && t.value.base.inUse && t.value.base.source.External?
  }

  /**
   * texName as getMaterial computes it from the texturing property it kept:
   * the resolved (never empty) name of slot 0's external file when that slot
   * is in use, and empty otherwise.
   */
  function TextureName(t: Option<Property>, resources: set<string>): (r: Result<string, string>)
    ensures NamesExternalTexture(t) ==>
      r == ResolveTexture(t.value.base.source.filename, resources) && (r.Success? ==> r.value != "")
    ensures !NamesExternalTexture(t) ==> r == Success("")
    ensures r.Success? && r.value != "" ==> NamesExternalTexture(t)
  {
    match t
    case Some(Texturing(TextureSlot(true, External(filename)))) =>
      var r := ResolveTexture(filename, resources);
      assert r.Success? ==> r.value != "" by {
        if r.Success? && TexturePrefix + filename !in resources {
          var texName := TexturePrefix + filename;
          var p :| 0 <= p < |texName| && texName[p] == '.' && '.' !in texName[p + 1..] && r.value == texName[..p] + ".dds";
          assert r.value[|r.value| - 4] == '.';
        }
      }
      r
    case _ => Success("")
  }

  /* ---------------- the material created ---------------- */

  /** How the first pass treats alpha. */
  datatype AlphaMode =
    | NoAlphaChange
    | AlphaReject(value: int)       // alpha-reject function >=, at the override value
    | TransparentBlend              // transparent-alpha scene blending, depth write off
    | UnhandledAlpha                // only a warning

  /**
   * A material as getMaterial sets it up: the first pass's texture unit and
   * vertex-colour tracking, its alpha handling, the shadow caster, the texture
   * of the fallback technique, and the colours.
   */
  datatype MaterialDef = MaterialDef(
    group: string,
    texture: Option<string>,
    tracksVertexColour: bool,
    alpha: AlphaMode,
    shadowCaster: Option<string>,
    fallbackTexture: string,
    ambient: Vec3, diffuse: Vec4, specular: Vec4, emissive: Vec3, shininess: real)

  const NoAlphaShadowCaster := "depth_shadow_caster_noalpha"

  /** NiAlphaProperty flags value for ordinary transparency. */
  const NormalTransparency := 237

  /** alphaFlags: the kept alpha property's flags, or -1 without one. */
  function AlphaFlags(a: Option<Property>): int {
    match a
    case Some(AlphaProperty(flags, _)) => flags
    case _ => -1
  }

  function AlphaSetup(texName: string, alphaFlags: int, overrides: map<string, int>): AlphaMode {
    if texName == "" || alphaFlags == -1 then NoAlphaChange
    else if alphaFlags == NormalTransparency then
      (if texName in overrides then AlphaReject(overrides[texName]) else TransparentBlend)
    else UnhandledAlpha
  }

  /** The colours of the material property, or the defaults (white ambient and diffuse, opaque). */
  function Colours(m: Option<Property>): MaterialData {
    match m
    case Some(Material(data)) => data
    case _ => MaterialData((1.0, 1.0, 1.0), (1.0, 1.0, 1.0), (0.0, 0.0, 0.0), (0.0, 0.0, 0.0), 0.0, 1.0)
  }

  function Define(group: string, texName: string, s: Scan, overrides: map<string, int>): MaterialDef {
    var c := Colours(s.m);
    var flags := AlphaFlags(s.a);
    MaterialDef(
      group,
      if texName == "" then None else Some(texName),
      texName != "",
      AlphaSetup(texName, flags, overrides),
      if texName != "" && flags == -1 then Some(NoAlphaShadowCaster) else None,
      texName,
      c.ambient,
      (c.diffuse.0, c.diffuse.1, c.diffuse.2, c.alpha),
      (c.specular.0, c.specular.1, c.specular.2, c.alpha),
      c.emissive,
      c.glossiness)
  }

  /**
   * The alpha handling of a new material, in terms of the properties the
   * scan kept: nothing is set up for an untextured material; a textured one
   * without an alpha property gets the no-alpha shadow caster; flags 237 give
   * a cutout at the override value when the texture has one and blending
   * otherwise; any other flags value is only reported.
   */
  lemma AlphaDecision(group: string, texName: string, s: Scan, overrides: map<string, int>)
    ensures var d := Define(group, texName, s, overrides);
      var flags := AlphaFlags(s.a);
      (texName == "" ==> d.alpha == NoAlphaChange && d.shadowCaster == None && d.texture == None && !d.tracksVertexColour) &&
      (texName != "" ==> d.texture == Some(texName) && d.tracksVertexColour) &&
      (d.shadowCaster.Some? <==> texName != "" && flags == -1) &&
      (s.a.None? && texName != "" ==> d.shadowCaster == Some(NoAlphaShadowCaster) && d.alpha == NoAlphaChange) &&
      (d.alpha.AlphaReject? <==> texName != "" && flags == NormalTransparency && texName in overrides) &&
      (d.alpha.AlphaReject? ==> d.alpha.value == overrides[texName]) &&
      (d.alpha == TransparentBlend <==> texName != "" && flags == NormalTransparency && texName !in overrides) &&
      (d.alpha == UnhandledAlpha <==> texName != "" && flags != -1 && flags != NormalTransparency)
  {
  }

  /* ---------------- registries ---------------- */

  /**
   * std::multimap::find on a multimap kept as its insertion sequence: the
   * value of the first-inserted entry with that key.
   */
  function FirstWithKey(mm: seq<(string, string)>, key: string): (r: Option<string>)
    ensures r.Some? <==> exists i :: 0 <= i < |mm| && mm[i].0 == key
    ensures r.Some? ==> exists i :: 0 <= i < |mm| && mm[i] == (key, r.value) && forall j :: 0 <= j < i ==> mm[j].0 != key
  {
    if mm == [] then None
    else if mm[0].0 == key then Some(mm[0].1)
    else
      var r := FirstWithKey(mm[1..], key);
      assert forall i :: 1 <= i < |mm| ==> mm[i] == mm[1..][i - 1];
      assert r.Some? ==> exists i :: 0 <= i < |mm| && mm[i] == (key, r.value) && forall j :: 0 <= j < i ==> mm[j].0 != key by {
        if r.Some? {
          var i :| 0 <= i < |mm[1..]| && mm[1..][i] == (key, r.value) && forall j :: 0 <= j < i ==> mm[1..][j].0 != key;
          assert mm[i + 1] == (key, r.value);
          assert forall j :: 0 <= j < i + 1 ==> mm[j].0 != key by {
            forall j | 0 <= j < i + 1 ensures mm[j].0 != key {
              if j > 0 { assert mm[j] == mm[1..][j - 1]; }
            }
          }
        }
      }
      r
  }

  lemma FirstWithKeyAppend(mm: seq<(string, string)>, key: string, value: string, k: string)
    ensures FirstWithKey(mm + [(key, value)], k) ==
      if FirstWithKey(mm, k).Some? then FirstWithKey(mm, k) else if k == key then Some(value) else None
  {
    if mm != [] {
      assert (mm + [(key, value)])[1..] == mm[1..] + [(key, value)];
      FirstWithKeyAppend(mm[1..], key, value, k);
    }
  }

  /** The Ogre material manager's materials by name, and the texture-name -> material-name multimap. */
  datatype MaterialState = MaterialState(materials: map<string, MaterialDef>, materialMap: seq<(string, string)>)

  /** Every material name in the multimap is a registered material. */
  ghost predicate MapConsistent(st: MaterialState) {
    forall i :: 0 <= i < |st.materialMap| ==> st.materialMap[i].1 in st.materials
  }

  /** The resource groups' file names and the per-texture transparency overrides, read but never changed. */
  datatype Environment = Environment(resources: set<string>, transparencyOverrides: map<string, int>)

  /**
   * getMaterial(shape, name, group): the material name it returns and the
   * registries after it; Failure is the exception the texture rewrite throws.
   */
  function GetMaterialSpec(st: MaterialState, props: seq<Option<Property>>, name: string, group: string, env: Environment)
    : (Result<string, string>, MaterialState)
  {
    if name in st.materials then (Success(name), st)
    else
      var s := ScanOf(props);
      match TextureName(s.t, env.resources)
      case Failure(e) => (Failure(e), st)
      case Success(texName) =>
        var shared := if s.m.Some? || texName != "" then FirstWithKey(st.materialMap, texName) else None;
        if shared.Some? then (Success(shared.value), st)
        else
          (Success(name),
           MaterialState(st.materials[name := Define(group, texName, s, env.transparencyOverrides)],
                         st.materialMap + [(texName, name)]))
  }

  /** A name that is already a material is returned as it is and nothing changes. */
  lemma GetMaterialExisting(st: MaterialState, props: seq<Option<Property>>, name: string, group: string, env: Environment)
    requires name in st.materials
    ensures GetMaterialSpec(st, props, name, group, env) == (Success(name), st)
  {
  }

  /**
   * A shape with a material property or a texture, whose texture name is
   * already in the multimap, shares the material first registered for that
   * texture name and nothing is created.
   */
  lemma GetMaterialShares(st: MaterialState, props: seq<Option<Property>>, name: string, group: string, env: Environment)
    requires name !in st.materials
    requires TextureName(ScanOf(props).t, env.resources).Success?
    requires var texName := TextureName(ScanOf(props).t, env.resources).value;
      (ScanOf(props).m.Some? || texName != "") &&
      exists i :: 0 <= i < |st.materialMap| && st.materialMap[i].0 == texName
    ensures var texName := TextureName(ScanOf(props).t, env.resources).value;
      var r := GetMaterialSpec(st, props, name, group, env);
      r.1 == st && r.0.Success? &&
      exists i :: 0 <= i < |st.materialMap| && st.materialMap[i] == (texName, r.0.value) &&
        forall j :: 0 <= j < i ==> st.materialMap[j].0 != texName
  {
  }

  /**
   * Otherwise a material named `name` is created from the properties and
   * (texName, name) is added to the multimap; this happens also for a shape
   * with neither a material property nor a texture.
   */
  lemma GetMaterialCreates(st: MaterialState, props: seq<Option<Property>>, name: string, group: string, env: Environment)
    requires name !in st.materials
    requires TextureName(ScanOf(props).t, env.resources).Success?
    requires var texName := TextureName(ScanOf(props).t, env.resources).value;
      (ScanOf(props).m.None? && texName == "") ||
      forall i :: 0 <= i < |st.materialMap| ==> st.materialMap[i].0 != texName
    ensures var texName := TextureName(ScanOf(props).t, env.resources).value;
      GetMaterialSpec(st, props, name, group, env) ==
        (Success(name), MaterialState(st.materials[name := Define(group, texName, ScanOf(props), env.transparencyOverrides)],
                                      st.materialMap + [(texName, name)]))
  {
  }

  /** The texture rewrite throwing leaves both registries as they were. */
  lemma GetMaterialThrows(st: MaterialState, props: seq<Option<Property>>, name: string, group: string, env: Environment)
    requires name !in st.materials
    requires TextureName(ScanOf(props).t, env.resources).Failure?
    ensures GetMaterialSpec(st, props, name, group, env) == (Failure(ReplaceOutOfRange), st)
  {
    var t := ScanOf(props).t;
    assert t.Some? && t.value.Texturing? && t.value.base.inUse && t.value.base.source.External?;
  }

  /** A returned material name is always a registered material, and the registries stay consistent. */
  lemma GetMaterialRegistered(st: MaterialState, props: seq<Option<Property>>, name: string, group: string, env: Environment)
    requires MapConsistent(st)
    ensures var r := GetMaterialSpec(st, props, name, group, env);
      MapConsistent(r.1) && (r.0.Success? ==> r.0.value in r.1.materials) &&
      st.materials.Keys <= r.1.materials.Keys
  {
    var r := GetMaterialSpec(st, props, name, group, env);
    if name !in st.materials {
      var s := ScanOf(props);
      var tn := TextureName(s.t, env.resources);
      if tn.Success? {
        var shared := if s.m.Some? || tn.value != "" then FirstWithKey(st.materialMap, tn.value) else None;
        if shared.Some? {
          var i :| 0 <= i < |st.materialMap| && st.materialMap[i] == (tn.value, shared.value) &&
            forall j :: 0 <= j < i ==> st.materialMap[j].0 != tn.value;
        }
      }
    }
  }

  /** Asking twice for the same shape and name gives the same answer and changes nothing more. */
  lemma GetMaterialIdempotent(st: MaterialState, props: seq<Option<Property>>, name: string, group: string, env: Environment)
    ensures var r := GetMaterialSpec(st, props, name, group, env);
      GetMaterialSpec(r.1, props, name, group, env) == r
  {
  }

  /**
   * The multimap is keyed by texture name alone: once a material exists for
   * an untextured shape, a later untextured shape WITH a material property
   * shares it, whatever colours either had.
   */
  lemma UntexturedMaterialsShared(
    st: MaterialState, props1: seq<Option<Property>>, props2: seq<Option<Property>>,
    name1: string, name2: string, group: string, env: Environment)
    requires name1 !in st.materials && name2 !in st.materials && name1 != name2
    requires FirstWithKey(st.materialMap, "").None?
    requires TextureName(ScanOf(props1).t, env.resources) == Success("")
    requires TextureName(ScanOf(props2).t, env.resources) == Success("")
    requires ScanOf(props2).m.Some?
    ensures var r1 := GetMaterialSpec(st, props1, name1, group, env);
      var r2 := GetMaterialSpec(r1.1, props2, name2, group, env);
      r1.0 == Success(name1) && r2 == (Success(name1), r1.1)
  {
    var r1 := GetMaterialSpec(st, props1, name1, group, env);
    FirstWithKeyAppend(st.materialMap, "", name1, "");
  }

  /** The Ogre material manager together with getMaterial's static multimap. */
  class MaterialRegistry {
    var materials: map<string, MaterialDef>
    var materialMap: seq<(string, string)>

    constructor ()
      ensures materials == map[] && materialMap == []
    {
      materials := map[];
      materialMap := [];
    }

    function State(): MaterialState
      reads this
    {
      MaterialState(materials, materialMap)
    }

    /** NIFMaterialLoader::getMaterial; Failure is the exception of the texture rewrite. */
    method GetMaterial(props: seq<Option<Property>>, name: string, group: string, env: Environment)
      returns (r: Result<string, string>)
      modifies this
      ensures (r, State()) == GetMaterialSpec(old(State()), props, name, group, env)
    {
      if name in materials {
        return Success(name);
      }
      var s := ScanProperties(props);
      var tn := TextureName(s.t, env.resources);
      if tn.Failure? {
        return Failure(tn.error);
      }
      var texName := tn.value;
      if s.m.Some? || texName != "" {
        var shared := FirstWithKey(materialMap, texName);
        if shared.Some? {
          return Success(shared.value);
        }
      }
      materials := materials[name := Define(group, texName, s, env.transparencyOverrides)];
      materialMap := materialMap + [(texName, name)];
      r := Success(name);
    }
  }
}
