/** `ConfigurationReader` (Java): which parser reads the configuration file. */
module ConfigurationReader {
  import opened Strings

  /** The two Jackson mappers: plain JSON, and one over a YAML factory. */
  datatype Mapper = JsonMapper | YamlMapper

  /**
   * `getFileExtension`: the lower-cased text after the last `.` of the path,
   * or "" when there is no `.` at all.
   */
  function GetFileExtension(filePath: string): (r: string)
    ensures '.' !in filePath ==> r == ""
    ensures '.' in filePath ==>
      exists k :: 0 <= k < |filePath| && filePath[k] == '.' && '.' !in filePath[k + 1..] && r == ToLower(filePath[k + 1..])
    ensures '.' !in r
  {
    var lastDotIndex := LastIndexOf(filePath, '.');
    if lastDotIndex == -1 then ""
    else
      var ext := filePath[lastDotIndex + 1..];
      assert forall i :: 0 <= i < |ext| ==> ext[i] == filePath[lastDotIndex + 1 + i];
      LowerKeepsDots(ext);
      ToLower(ext)
  }

  /** Lower-casing neither adds nor removes dots. */
  lemma LowerKeepsDots(s: string)
    ensures '.' in ToLower(s) <==> '.' in s
  {
    if '.' in ToLower(s) {
      var i :| 0 <= i < |s| && ToLower(s)[i] == '.';
      assert s[i] == '.';
    }
    if '.' in s {
      var i :| 0 <= i < |s| && s[i] == '.';
      assert ToLower(s)[i] == '.';
    }
  }

  /** `getMapperForExtension`: YAML for "yaml" and "yml", JSON for everything else. */
  function GetMapperForExtension(extension: string): (r: Mapper)
    ensures r == YamlMapper <==> extension == "yaml" || extension == "yml"
  {
    match extension
    case "yaml" => YamlMapper
    case "yml" => YamlMapper
    case "json" => JsonMapper
    case _ => JsonMapper
  }

  /** The mapper `readFile` uses for a path. */
  function MapperForPath(configPath: string): Mapper {
    GetMapperForExtension(GetFileExtension(configPath))
  }

  /** A path without a dot is read as JSON. */
  lemma NoExtensionReadsJson(configPath: string)
    requires '.' !in configPath
    ensures MapperForPath(configPath) == JsonMapper
  {
  }

  /** The extension is lower-cased first, so `config.YML` is read as YAML. */
  lemma UpperCaseExtensionReadsYaml(configPath: string)
    requires configPath == "config.YML"
    ensures MapperForPath(configPath) == YamlMapper
  {
    assert configPath[6] == '.' && configPath[7] == 'Y' && configPath[8] == 'M' && configPath[9] == 'L';
    assert LastIndexOf(configPath, '.') == 6;
    assert configPath[7..] == "YML";
    assert ToLower("YML") == "yml";
  }

  /** Only the text after the last dot counts: `app.yaml.json` is read as JSON. */
  lemma LastDotDecides(configPath: string)
    requires configPath == "app.yaml.json"
    ensures MapperForPath(configPath) == JsonMapper
  {
    assert configPath[8] == '.' && configPath[9] == 'j' && configPath[10] == 's' && configPath[11] == 'o' && configPath[12] == 'n';
    assert LastIndexOf(configPath, '.') == 8;
    assert configPath[9..] == "json";
    assert ToLower("json") == "json";
  }
}
