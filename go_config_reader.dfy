/** `internal/config/reader.go`: which decoder reads the configuration file. */
module GoConfigReader {
  import opened Strings

  datatype Format = FormatUnknown | FormatJson | FormatYaml

  /** The decoders `decode` can use. */
  datatype Decoder = JsonDecoder | YamlDecoder

  /** `extToFormat`: a case-sensitive lookup in the table json/yaml/yml, Unknown otherwise. */
  function ExtToFormat(ext: string): (f: Format)
    ensures f == FormatJson <==> ext == "json"
    ensures f == FormatYaml <==> ext == "yaml" || ext == "yml"
  {
    if ext == "json" then FormatJson
    else if ext == "yaml" || ext == "yml" then FormatYaml
    else FormatUnknown
  }

  /**
   * `filepath.Ext`: the suffix from the final dot of the final path element
   * (elements are separated by `/`), or "" when that element has no dot.
   */
  function Ext(path: string): (r: string)
    ensures |r| <= |path|
    ensures r != "" ==> r[0] == '.' && r == path[|path| - |r|..] && '.' !in r[1..] && '/' !in r
    decreases |path|
  {
    if path == [] || path[|path| - 1] == '/' then ""
    else if path[|path| - 1] == '.' then "."
    else
      var e := Ext(path[..|path| - 1]);
      if e == "" then "" else e + [path[|path| - 1]]
  }

  /** `strings.TrimPrefix(s, ".")`. */
  function TrimDot(s: string): (r: string)
    ensures |s| > 0 && s[0] == '.' ==> r == s[1..]
    ensures !(|s| > 0 && s[0] == '.') ==> r == s
  {
    if |s| > 0 && s[0] == '.' then s[1..] else s
  }

  /** The format `ReadFile` picks for a path. */
  function FormatForPath(path: string): Format {
    ExtToFormat(TrimDot(Ext(path)))
  }

  /** `decode`: the YAML decoder only for YAML; Unknown falls to the JSON default. */
  function DecoderFor(f: Format): (d: Decoder)
    ensures d == YamlDecoder <==> f == FormatYaml
  {
    match f
    case FormatYaml => YamlDecoder
    case _ => JsonDecoder
  }

  /** The lookup is case-sensitive: "YML" is Unknown, and is then decoded as JSON. */
  lemma UpperCaseExtensionIsUnknown(ext: string)
    requires ext == "YML"
    ensures ExtToFormat(ext) == FormatUnknown
    ensures DecoderFor(ExtToFormat(ext)) == JsonDecoder
  {
    assert ext[0] != 'y' && ext[0] != 'j';
  }

  /** A dot in a directory name is not an extension: `conf.d/settings` has none. */
  lemma DirectoryDotIsNotExtension(path: string)
    requires path == "conf.d/app"
    ensures Ext(path) == ""
    ensures FormatForPath(path) == FormatUnknown
  {
    var p := path;
    assert p[..|p| - 1] == "conf.d/ap";
    assert p[..|p| - 2] == "conf.d/a";
    assert p[..|p| - 3] == "conf.d/";
    assert Ext(p[..|p| - 3]) == "";
    assert Ext(p[..|p| - 2]) == "";
    assert Ext(p[..|p| - 1]) == "";
  }

  /** Round trip: a path ending in a dot and then no dot or slash has exactly that ending as its extension. */
  lemma {:induction false} ExtOfSuffix(base: string, ext: string)
    requires |ext| > 0 && ext[0] == '.' && '.' !in ext[1..] && '/' !in ext
    ensures Ext(base + ext) == ext
    decreases |ext|
  {
    var p := base + ext;
    var last := ext[|ext| - 1];
    assert p[|p| - 1] == last;
    if |ext| > 1 {
      var init := ext[..|ext| - 1];
      assert last == ext[1..][|ext| - 2];
      assert p[..|p| - 1] == base + init;
      assert init[1..] == ext[1..][..|ext| - 2];
      assert init == ext[..1] + init[1..];
      ExtOfSuffix(base, init);
      assert init + [last] == ext;
    }
  }

  /** `config/app.yml` is read with the YAML decoder. */
  lemma YamlFileExample(path: string)
    requires path == "config/app.yml"
    ensures Ext(path) == ".yml"
    ensures DecoderFor(FormatForPath(path)) == YamlDecoder
  {
    assert path == "config/app" + ".yml";
    ExtOfSuffix("config/app", ".yml");
    assert TrimDot(".yml") == "yml";
  }

  /**
   * A file name ending in a dot and a dot-free, slash-free extension is read
   * in the format the table gives that extension.
   */
  lemma FormatOfExtension(base: string, e: string)
    requires '.' !in e && '/' !in e
    ensures FormatForPath(base + "." + e) == ExtToFormat(e)
  {
    var ext := "." + e;
    assert ext[1..] == e;
    assert base + "." + e == base + ext;
    ExtOfSuffix(base, ext);
    assert TrimDot(ext) == e;
  }
}
