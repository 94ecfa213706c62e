/** The scene lights of components/model/Light.tsx: a settings object fed by
    the environment preset and by `settings_update`, and the environment
    map, tried as EXR first and JPG second. */
module Light {
  import opened Base
  import opened Values
  import opened HexColor

  /** An entry of `ENV_LIGHT_PRESETS` (components/utils/Constants.tsx). */
  datatype Preset = Preset(spotIntensity: real, hemiIntensity: real, color: nat)

  const Presets: map<string, Preset> :=
    map["evening" := Preset(0.6, 0.2, 0xffd9a5),
        "night" := Preset(0.3, 0.1, 0x8899ff),
        "overcast" := Preset(1.0, 0.6, 0xd8d8d8),
        "sunset" := Preset(0.8, 0.3, 0xffb07c)]

  /** The key the lights read the hemisphere intensity from. */
  const HemiKey: string := "hemiIntesity"

  const InitialSettings: map<string, Value> :=
    map["intensity" := Num(1.2), "color" := Num(0xfff4e6 as real), HemiKey := Num(1.0)]

  /** What the two lights are given: spot intensity, colour (shared by the
      spot light and both hemisphere colours) and hemisphere intensity. */
  datatype Lights = Lights(intensity: Value, color: Value, hemiIntensity: Value)

  function Rendered(settings: map<string, Value>): (l: Lights)
    ensures l.intensity == Lookup(settings, "intensity")
    ensures l.color == Lookup(settings, "color")
    ensures l.hemiIntensity == Lookup(settings, HemiKey)
  {
    Lights(Lookup(settings, "intensity"), Lookup(settings, "color"), Lookup(settings, HemiKey))
  }

  /** The preset effect as written: the hemisphere value is stored under
      "hemiIntensity", a key the lights never read. */
  function ApplyPresetAsWritten(settings: map<string, Value>, envFolder: string): (r: map<string, Value>)
    ensures envFolder !in Presets ==> r == settings
    ensures envFolder in Presets ==>
              Lookup(r, "intensity") == Num(Presets[envFolder].spotIntensity)
              && Lookup(r, "color") == Num(Presets[envFolder].color as real)
              && Lookup(r, HemiKey) == Lookup(settings, HemiKey)
  {
    if envFolder in Presets then
      var p := Presets[envFolder];
      Merge(Merge(Merge(settings, "intensity", Num(p.spotIntensity)), "color", Num(p.color as real)),
            "hemiIntensity", Num(p.hemiIntensity))
    else settings
  }

  /** With the evening preset the rendered hemisphere intensity stays at 1
      instead of the preset's 0.2. */
  lemma PresetHemiIgnored()
    ensures Rendered(ApplyPresetAsWritten(InitialSettings, "evening")).hemiIntensity == Num(1.0)
    ensures Presets["evening"].hemiIntensity == 0.2
  {
  }

  /** The preset effect writing the key the lights read. */
  function ApplyPreset(settings: map<string, Value>, envFolder: string): (r: map<string, Value>)
    ensures envFolder !in Presets ==> r == settings
    ensures envFolder in Presets ==>
              Rendered(r) == Lights(Num(Presets[envFolder].spotIntensity), Num(Presets[envFolder].color as real),
                                    Num(Presets[envFolder].hemiIntensity))
    ensures forall k :: k != "intensity" && k != "color" && k != HemiKey ==> Lookup(r, k) == Lookup(settings, k)
  {
    if envFolder in Presets then
      var p := Presets[envFolder];
      Merge(Merge(Merge(settings, "intensity", Num(p.spotIntensity)), "color", Num(p.color as real)),
            HemiKey, Num(p.hemiIntensity))
    else settings
  }

  /** Applying a preset twice is applying it once. */
  lemma ApplyPresetIdempotent(settings: map<string, Value>, envFolder: string)
    ensures ApplyPreset(ApplyPreset(settings, envFolder), envFolder) == ApplyPreset(settings, envFolder)
  {
  }

  /** `settings_update`: the intensity is taken as sent; a string colour is
      converted with `replace("#", "0x")` and `parseInt(…, 16)`. A colour
      that is not a string makes `replace` throw after the intensity update
      was queued, so the colour is kept. */
  function OnSettingsUpdate(settings: map<string, Value>, data: map<string, Value>): (r: map<string, Value>)
    ensures Lookup(r, "intensity") == Lookup(data, "lightIntensity")
    ensures Lookup(data, "lightColor").Str? ==>
              Lookup(r, "color") == ParseIntHex(ReplaceFirst(Lookup(data, "lightColor").s, '#', "0x"))
    ensures !Lookup(data, "lightColor").Str? ==> Lookup(r, "color") == Lookup(settings, "color")
    ensures forall k :: k != "intensity" && k != "color" ==> Lookup(r, k) == Lookup(settings, k)
  {
    var withIntensity := Merge(settings, "intensity", Lookup(data, "lightIntensity"));
    match Lookup(data, "lightColor")
    case Str(c) => Merge(withIntensity, "color", ParseIntHex(ReplaceFirst(c, '#', "0x")))
    case _ => withIntensity
  }

  /** A colour picked as "#rrggbb" reaches the lights as the same 24-bit
      number, and the sidebar's initial settings give white at intensity 2. */
  lemma SettingsColorRoundTrip(settings: map<string, Value>, n: nat, intensity: Value)
    requires n < 0x1000000
    ensures var r := OnSettingsUpdate(settings, map["lightIntensity" := intensity, "lightColor" := Str(ColorString(n))]);
            Rendered(r).color == Num(n as real) && Rendered(r).intensity == intensity
  {
    ColorRoundTrip(n);
  }

  lemma SidebarDefaultsGiveWhite(settings: map<string, Value>)
    ensures var r := OnSettingsUpdate(settings, map["lightIntensity" := Num(2.0), "lightColor" := Str("#ffffff")]);
            Rendered(r).color == Num(16777215.0) && Rendered(r).intensity == Num(2.0)
  {
    WhiteParses("#ffffff");
  }

  const EnvironmentBucket: string := "https://3d-web-models-bucket.s3.eu-north-1.amazonaws.com/"

  /** The environment path shared by both attempts. */
  function EnvironmentPath(folder: string): string
  {
    EnvironmentBucket + "enviroment/" + folder + "/" + folder
  }

  /** The environment load: the URLs requested in order and the one whose
      texture became the environment map, given which loads succeed. */
  function LoadEnvironment(folder: string, exrOk: bool, jpgOk: bool): (r: (seq<string>, Option<string>))
    ensures |r.0| >= 1 && r.0[0] == EnvironmentPath(folder) + ".exr"
    ensures |r.0| == 2 <==> !exrOk
    ensures |r.0| == 2 ==> r.0[1] == EnvironmentPath(folder) + ".jpg"
    ensures r.1.Some? ==> r.1.value == r.0[|r.0| - 1]
    ensures r.1.Some? <==> exrOk || jpgOk
  {
    var path := EnvironmentPath(folder);
    if exrOk then ([path + ".exr"], Some(path + ".exr"))
    else if jpgOk then ([path + ".exr", path + ".jpg"], Some(path + ".jpg"))
    else ([path + ".exr", path + ".jpg"], None)
  }

  /** The JPG is used only when the EXR failed. */
  lemma JpgOnlyAfterExrFails(folder: string, exrOk: bool, jpgOk: bool)
    ensures LoadEnvironment(folder, exrOk, jpgOk).1 == Some(EnvironmentPath(folder) + ".jpg") ==> !exrOk && jpgOk
  {
    assert EnvironmentPath(folder) + ".jpg" != EnvironmentPath(folder) + ".exr" by {
      var a, b := EnvironmentPath(folder) + ".jpg", EnvironmentPath(folder) + ".exr";
      assert a[|a| - 1] == 'g' && b[|b| - 1] == 'r';
    }
  }
}
