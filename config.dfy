/**
 * The codegen.yaml configuration (graphql_codegen/config.py): its fields and
 * defaults, the two field validators, and the choice of output directory.
 * Reading the YAML file is not modelled; a configuration is built from the
 * values it holds.
 */
module Config {
  import opened Wrappers
  import opened Text

  datatype CodegenConfig = CodegenConfig(
    package: string,
    runtimePackage: string,
    codegenVersion: string,
    scalars: map<string, string>,
    templates: Option<string>,
    flatOutput: bool,
    stdout: bool,
    schemaLines: Option<string>,
    baseSchema: Option<string>)

  /** One validator's complaint; pydantic reports all of them in one ValidationError. */
  datatype ConfigError = InvalidPackageName(name: string) | UnsupportedVersion(version: string)

  /** The only supported value of `codegen_version`. */
  const SupportedVersion: string := "0.1"

  /** The configuration holding only the three required values, every other field at its default. */
  function WithDefaults(package: string, runtimePackage: string, codegenVersion: string): CodegenConfig
  {
    CodegenConfig(package, runtimePackage, codegenVersion, map[], None, false, false, None, None)
  }

  predicate IsAsciiLetter(c: char)
  {
    ('a' <= c <= 'z') || ('A' <= c <= 'Z')
  }

  predicate IsIdentifierChar(c: char)
  {
    IsAsciiLetter(c) || ('0' <= c <= '9') || c == '_'
  }

  /** `str.isidentifier` over ASCII: a letter or underscore, then letters, digits and underscores. Keywords pass. */
  predicate IsIdentifier(s: string)
  {
    && |s| > 0 && (IsAsciiLetter(s[0]) || s[0] == '_')
    && forall k :: 0 <= k < |s| ==> IsIdentifierChar(s[k])
  }

  function ValidatePackageName(v: string): (r: Result<string, ConfigError>)
    ensures r.Success? <==> IsIdentifier(v)
    ensures r.Success? ==> r.value == v
    ensures r.Failure? ==> r.error == InvalidPackageName(v)
  {
    if !IsIdentifier(v) then Failure(InvalidPackageName(v)) else Success(v)
  }

  function ValidateVersion(v: string): (r: Result<string, ConfigError>)
    ensures r.Success? <==> v == "0.1"
    ensures r.Success? ==> r.value == v
    ensures r.Failure? ==> r.error == UnsupportedVersion(v)
  {
    if v != SupportedVersion then Failure(UnsupportedVersion(v)) else Success(v)
  }

  /**
   * Constructing the model runs both validators, in field order, and reports
   * every failure: a bad package name first, then a bad version.
   */
  function Validate(raw: CodegenConfig): (r: Result<CodegenConfig, seq<ConfigError>>)
    ensures r.Success? <==> IsIdentifier(raw.package) && raw.codegenVersion == SupportedVersion
    ensures r.Success? ==> r.value == raw
    ensures r.Failure? ==> 1 <= |r.error| <= 2
    ensures r.Failure? ==>
      r.error[0] == (if !IsIdentifier(raw.package) then InvalidPackageName(raw.package) else UnsupportedVersion(raw.codegenVersion))
    ensures r.Failure? && |r.error| == 2 ==> r.error[1] == UnsupportedVersion(raw.codegenVersion)
  {
    var errors :=
      (if ValidatePackageName(raw.package).Failure? then [ValidatePackageName(raw.package).error] else [])
      + (if ValidateVersion(raw.codegenVersion).Failure? then [ValidateVersion(raw.codegenVersion).error] else []);
    if |errors| == 0 then Success(raw) else Failure(errors)
  }

  /** A configuration is accepted, unchanged, exactly when both validators accept; otherwise each failure is reported. */
  lemma ValidateAcceptsExactly(raw: CodegenConfig)
    ensures Validate(raw).Success? <==> IsIdentifier(raw.package) && raw.codegenVersion == "0.1"
    ensures Validate(raw).Success? ==> Validate(raw).value == raw
    ensures Validate(raw).Failure? ==>
      && (InvalidPackageName(raw.package) in Validate(raw).error <==> !IsIdentifier(raw.package))
      && (UnsupportedVersion(raw.codegenVersion) in Validate(raw).error <==> raw.codegenVersion != "0.1")
  {
  }

  /** The defaults: no scalar mappings, package output, files rather than stdout, no base-schema slicing. */
  lemma DefaultsAreEmpty(package: string, runtimePackage: string)
    requires IsIdentifier(package)
    ensures var r := Validate(WithDefaults(package, runtimePackage, "0.1"));
      && r.Success?
      && r.value.scalars == map[] && r.value.templates == None
      && !r.value.flatOutput && !r.value.stdout
      && r.value.schemaLines == None && r.value.baseSchema == None
  {
  }

  /** isidentifier does not reject Python keywords, and does reject a hyphenated name. */
  lemma IdentifierExamples()
    ensures ValidatePackageName("class") == Success("class")
    ensures ValidatePackageName("my-pkg").Failure?
    ensures ValidatePackageName("").Failure?
  {
    assert !IsIdentifierChar("my-pkg"[2]);
  }

  // ---------------------------------------------------------------------
  // get_output_path
  // ---------------------------------------------------------------------

  /** A pathlib path: absolute or relative, and its components. */
  datatype Path = Path(absolute: bool, parts: seq<string>)

  /** str() of a path: components joined by "/", a leading "/" when absolute, "." for the empty relative path. */
  function PathText(p: Path): string
  {
    if p.absolute then "/" + Join(p.parts, '/')
    else if p.parts == [] then "."
    else Join(p.parts, '/')
  }

  /** `p.parent`: the root and "." are their own parents. */
  function Parent(p: Path): Path
  {
    if p.parts == [] then p else Path(p.absolute, p.parts[..|p.parts| - 1])
  }

  /** `p / name` for a single component. */
  function Child(p: Path, name: string): Path
  {
    Path(p.absolute, p.parts + [name])
  }

  /**
   * `get_output_path`: a directory named after the package, as absolute as
   * the schema directory; under a test-input directory its parent is
   * `outputs`.
   */
  function GetOutputPath(config: CodegenConfig, schemaDir: Path): (r: Path)
    ensures r.absolute == schemaDir.absolute
    ensures |r.parts| > 0 && r.parts[|r.parts| - 1] == config.package
    ensures Contains(PathText(schemaDir), "test/inputs") ==> |r.parts| >= 2 && r.parts[|r.parts| - 2] == "outputs"
  {
    if Contains(PathText(schemaDir), "test/inputs") then
      Child(Child(Parent(Parent(schemaDir)), "outputs"), config.package)
    else
      Child(Parent(schemaDir), config.package)
  }

  /**
   * The output directory is named after the package; under a test-input
   * directory it sits in an `outputs` directory two levels up, otherwise
   * beside the schema directory.
   */
  lemma OutputPathPlacement(config: CodegenConfig, schemaDir: Path)
    ensures var out := GetOutputPath(config, schemaDir);
      && out.absolute == schemaDir.absolute
      && (Contains(PathText(schemaDir), "test/inputs") ==>
            out.parts == Parent(Parent(schemaDir)).parts + ["outputs", config.package])
      && (!Contains(PathText(schemaDir), "test/inputs") ==>
            out.parts == Parent(schemaDir).parts + [config.package])
  {
    if Contains(PathText(schemaDir), "test/inputs") {
      var g := Parent(Parent(schemaDir));
      assert g.parts + ["outputs"] + [config.package] == g.parts + ["outputs", config.package];
    }
  }

  /** test/inputs/smoothies with package smoothies writes to test/outputs/smoothies. */
  lemma OutputPathForTestInputs()
    ensures GetOutputPath(WithDefaults("smoothies", "rt", "0.1"), Path(false, ["test", "inputs", "smoothies"]))
      == Path(false, ["test", "outputs", "smoothies"])
  {
    var dir := Path(false, ["test", "inputs", "smoothies"]);
    assert Join(["smoothies"], '/') == "smoothies";
    assert ["test", "inputs", "smoothies"][1..] == ["inputs", "smoothies"];
    assert ["inputs", "smoothies"][1..] == ["smoothies"];
    assert Join(["inputs", "smoothies"], '/') == "inputs/smoothies";
    assert PathText(dir) == "test/inputs/smoothies";
    assert StartsWith("test/inputs/smoothies", "test/inputs");
    assert dir.parts[..2][..1] == ["test"];
  }
}
