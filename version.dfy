/** Version reporting for a command-line program (click_extra/version.py): the
    `--version` option, the styling of its message template, the substitution of
    the four version fields, the derivation of the package name, and the callback
    that records the version metadata on the context and prints the message. */
module Version {
  import opened Wrappers
  import opened Strings
  import Cli

  /** A text style, applied by wrapping text; terminal escape codes are not modelled. */
  type Style = string -> string

  const VersionField: string := "%(version)s"
  const PackageNameField: string := "%(package_name)s"
  const ProgNameField: string := "%(prog_name)s"
  const EnvInfoField: string := "%(env_info)s"

  /** The class-level default message template. */
  const DefaultMessage: string := "%(prog_name)s, version %(version)s"

  /** Keys under which the callback stores the metadata in the context. */
  const PackageNameKey: string := "click_extra.package_name"
  const VersionKey: string := "click_extra.version"
  const ProgNameKey: string := "click_extra.prog_name"
  const EnvInfoKey: string := "click_extra.env_info"

  predicate IsField(p: string)
  {
    p == VersionField || p == PackageNameField || p == ProgNameField || p == EnvInfoField
  }

  /** The field `t` starts with, trying the alternatives of the split pattern in order. */
  function FieldAt(t: string): (r: Option<string>)
    ensures r.Some? ==> IsField(r.value) && r.value <= t
    ensures r.None? ==> forall p :: IsField(p) ==> !(p <= t)
  {
    if VersionField <= t then Some(VersionField)
    else if PackageNameField <= t then Some(PackageNameField)
    else if ProgNameField <= t then Some(ProgNameField)
    else if EnvInfoField <= t then Some(EnvInfoField)
    else None
  }

  /** No field starts anywhere inside `s`. */
  predicate NoField(s: string)
  {
    forall o :: 0 <= o < |s| ==> FieldAt(s[o..]).None?
  }

  lemma FieldAtOfPrefix(y: string, x: string)
    requires y <= x && FieldAt(x).None?
    ensures FieldAt(y).None?
  {
  }

  /** `re.split` of the rest of a template `t` on the capturing alternation of the
      four fields, `lit` being the literal text read since the last field: literal
      fragments (possibly empty) alternate with the fields matched, leftmost first. */
  function SplitFrom(t: string, lit: string): seq<string>
    decreases |t|
  {
    if t == [] then [lit]
    else
      var f := FieldAt(t);
      if f.Some? then [lit, f.value] + SplitFrom(t[|f.value|..], [])
      else SplitFrom(t[1..], lit + [t[0]])
  }

  function SplitFields(t: string): seq<string>
  {
    SplitFrom(t, [])
  }

  lemma SplitFromFieldStep(t: string, lit: string)
    requires t != [] && FieldAt(t).Some?
    ensures var f := FieldAt(t).value;
      && SplitFrom(t, lit) == [lit, f] + SplitFrom(t[|f|..], [])
      && f + t[|f|..] == t
  {
  }

  lemma SplitFromLiteralStep(t: string, lit: string)
    requires t != [] && FieldAt(t).None?
    ensures SplitFrom(t, lit) == SplitFrom(t[1..], lit + [t[0]])
    ensures lit + [t[0]] + t[1..] == lit + t
  {
  }

  lemma {:induction false} SplitFromJoin(t: string, lit: string)
    ensures Concat(SplitFrom(t, lit)) == lit + t
    decreases |t|
  {
    if t == [] {
      ConcatSingle(lit);
    } else if FieldAt(t).Some? {
      var f := FieldAt(t).value;
      SplitFromFieldStep(t, lit);
      SplitFromJoin(t[|f|..], []);
      ConcatPairThen(lit, f, SplitFrom(t[|f|..], []));
    } else {
      SplitFromLiteralStep(t, lit);
      SplitFromJoin(t[1..], lit + [t[0]]);
    }
  }

  /** The split fragments join back to the template. */
  lemma SplitFieldsJoin(t: string)
    ensures Concat(SplitFields(t)) == t
  {
    SplitFromJoin(t, []);
  }

  /** Even positions hold literal fragments with no field in them, odd positions
      hold fields, and the split ends on a literal fragment. */
  predicate Alternates(parts: seq<string>)
  {
    && |parts| % 2 == 1
    && forall k :: 0 <= k < |parts| ==> if k % 2 == 1 then IsField(parts[k]) else NoField(parts[k])
  }

  lemma AlternatesCons(lit: string, f: string, rest: seq<string>)
    requires NoField(lit) && IsField(f) && Alternates(rest)
    ensures Alternates([lit, f] + rest)
  {
    var parts := [lit, f] + rest;
    forall k | 2 <= k < |parts|
      ensures if k % 2 == 1 then IsField(parts[k]) else NoField(parts[k])
    {
      assert parts[k] == rest[k - 2];
      assert (k - 2) % 2 == k % 2;
    }
  }

  lemma {:induction false} SplitFromAlternates(t: string, lit: string)
    requires forall o :: 0 <= o < |lit| ==> FieldAt((lit + t)[o..]).None?
    ensures Alternates(SplitFrom(t, lit))
    decreases |t|
  {
    if t == [] {
      assert lit + t == lit;
    } else if FieldAt(t).Some? {
      var f := FieldAt(t).value;
      SplitFromFieldStep(t, lit);
      forall o | 0 <= o < |lit|
        ensures FieldAt(lit[o..]).None?
      {
        FieldAtOfPrefix(lit[o..], (lit + t)[o..]);
      }
      SplitFromAlternates(t[|f|..], []);
      AlternatesCons(lit, f, SplitFrom(t[|f|..], []));
    } else {
      var lit' := lit + [t[0]];
      SplitFromLiteralStep(t, lit);
      assert (lit + t)[|lit|..] == t;
      SplitFromAlternates(t[1..], lit');
    }
  }

  lemma SplitFieldsAlternates(t: string)
    ensures Alternates(SplitFields(t))
  {
    SplitFromAlternates(t, []);
  }

  /** A stretch with no field in it is read as literal text. */
  lemma {:induction false} SplitFromLiteral(chunk: string, rest: string, lit: string)
    requires forall o :: 0 <= o < |chunk| ==> FieldAt((chunk + rest)[o..]).None?
    ensures SplitFrom(chunk + rest, lit) == SplitFrom(rest, lit + chunk)
    decreases |chunk|
  {
    if chunk == [] {
      assert chunk + rest == rest && lit + chunk == lit;
    } else {
      var t := chunk + rest;
      assert t[0..] == t;
      assert t[1..] == chunk[1..] + rest;
      SplitFromLiteralStep(t, lit);
      forall o | 0 <= o < |chunk[1..]|
        ensures FieldAt((chunk[1..] + rest)[o..]).None?
      {
        assert (chunk[1..] + rest)[o..] == t[o + 1..];
      }
      SplitFromLiteral(chunk[1..], rest, lit + [t[0]]);
      assert lit + [t[0]] + chunk[1..] == lit + chunk;
    }
  }

  lemma NoFieldSplitsToItself(t: string)
    requires NoField(t)
    ensures SplitFields(t) == [t]
  {
    assert t + [] == t && [] + t == t;
    SplitFromLiteral(t, [], []);
    assert SplitFrom([], t) == [t];
  }

  // ---------------------------------------------------------------- styling

  /** The five styles of the option; `None` means the text is left as it is. */
  datatype Styles = Styles(
    version: Option<Style>,
    packageName: Option<Style>,
    progName: Option<Style>,
    envInfo: Option<Style>,
    message: Option<Style>)

  predicate Unstyled(s: Styles)
  {
    s.version.None? && s.packageName.None? && s.progName.None? && s.envInfo.None? && s.message.None?
  }

  /** The style each field is mapped to. */
  function FieldStyle(s: Styles, field: string): Option<Style>
    requires IsField(field)
  {
    if field == VersionField then s.version
    else if field == PackageNameField then s.packageName
    else if field == ProgNameField then s.progName
    else s.envInfo
  }

  /** `part_vars.get(part, message_style)`. */
  function StyleFor(s: Styles, part: string): Option<Style>
  {
    if IsField(part) then FieldStyle(s, part) else s.message
  }

  function Apply(style: Option<Style>, text: string): string
  {
    match style
    case Some(f) => f(text)
    case None => text
  }

  /** What the loop appends for one split fragment: nothing for an empty one. */
  function Piece(s: Styles, part: string): string
  {
    if part == [] then [] else Apply(StyleFor(s, part), part)
  }

  function ColoredParts(s: Styles, parts: seq<string>): string
  {
    if parts == [] then [] else ColoredParts(s, parts[..|parts| - 1]) + Piece(s, parts[|parts| - 1])
  }

  /** The styled template: each split fragment styled and the results joined. */
  function Colored(s: Styles, template: string): string
  {
    ColoredParts(s, SplitFields(template))
  }

  lemma {:induction false} UnstyledPartsJoin(s: Styles, parts: seq<string>)
    requires Unstyled(s)
    ensures ColoredParts(s, parts) == Concat(parts)
    decreases |parts|
  {
    if parts != [] {
      UnstyledPartsJoin(s, parts[..|parts| - 1]);
    }
  }

  /** With no style set at all, styling gives back the template unchanged. */
  lemma UnstyledTemplateUnchanged(s: Styles, t: string)
    requires Unstyled(s)
    ensures Colored(s, t) == t
  {
    UnstyledPartsJoin(s, SplitFields(t));
    SplitFieldsJoin(t);
  }

  /** Every field occurrence is styled with the style mapped to that field, never
      with the message style; every other non-empty fragment is styled with the
      message style; empty fragments contribute nothing. */
  lemma FieldsTakeOwnStyle(s: Styles, t: string, k: nat)
    requires k < |SplitFields(t)|
    ensures var part := SplitFields(t)[k];
      && (k % 2 == 1 ==> IsField(part) && Piece(s, part) == Apply(FieldStyle(s, part), part))
      && (k % 2 == 0 ==> !IsField(part) && Piece(s, part) == if part == [] then [] else Apply(s.message, part))
  {
    SplitFieldsAlternates(t);
    var part := SplitFields(t)[k];
    if k % 2 == 0 && part != [] {
      assert part[0..] == part;
      assert FieldAt(part).None?;
      assert part <= part;
    }
  }

  lemma ColoredPrefixStep(s: Styles, parts: seq<string>, k: nat)
    requires k < |parts|
    ensures ColoredParts(s, parts[..k + 1]) == ColoredParts(s, parts[..k]) + Piece(s, parts[k])
  {
    assert parts[..k + 1][..k] == parts[..k];
  }

  lemma ColoredFiveParts(s: Styles, parts: seq<string>)
    requires |parts| == 5
    ensures ColoredParts(s, parts)
         == Piece(s, parts[0]) + Piece(s, parts[1]) + Piece(s, parts[2]) + Piece(s, parts[3]) + Piece(s, parts[4])
  {
    calc {
      ColoredParts(s, parts);
      == { assert parts[..5] == parts; }
      ColoredParts(s, parts[..5]);
      == { ColoredPrefixStep(s, parts, 4); }
      ColoredParts(s, parts[..4]) + Piece(s, parts[4]);
      == { ColoredPrefixStep(s, parts, 3); }
      ColoredParts(s, parts[..3]) + Piece(s, parts[3]) + Piece(s, parts[4]);
      == { ColoredPrefixStep(s, parts, 2); }
      ColoredParts(s, parts[..2]) + Piece(s, parts[2]) + Piece(s, parts[3]) + Piece(s, parts[4]);
      == { ColoredPrefixStep(s, parts, 1); }
      ColoredParts(s, parts[..1]) + Piece(s, parts[1]) + Piece(s, parts[2]) + Piece(s, parts[3]) + Piece(s, parts[4]);
      == { ColoredPrefixStep(s, parts, 0); assert parts[..0] == [];
           assert ColoredParts(s, parts[..1]) == [] + Piece(s, parts[0]) == Piece(s, parts[0]); }
      Piece(s, parts[0]) + Piece(s, parts[1]) + Piece(s, parts[2]) + Piece(s, parts[3]) + Piece(s, parts[4]);
    }
  }

  /** The default template styles its program name and version fields with their
      own styles and the text between them with the message style. */
  lemma ColoredDefaultMessage(s: Styles)
    ensures Colored(s, DefaultMessage)
         == Apply(s.progName, ProgNameField) + Apply(s.message, ", version ") + Apply(s.version, VersionField)
  {
    calc {
      Colored(s, DefaultMessage);
      == { DefaultMessageSplit(); }
      ColoredParts(s, ["", ProgNameField, ", version ", VersionField, ""]);
      == { ColoredFiveParts(s, ["", ProgNameField, ", version ", VersionField, ""]); }
      Piece(s, "") + Piece(s, ProgNameField) + Piece(s, ", version ") + Piece(s, VersionField) + Piece(s, "");
      == { assert !IsField(", version "); }
      Apply(s.progName, ProgNameField) + Apply(s.message, ", version ") + Apply(s.version, VersionField);
    }
  }

  lemma DefaultMessageStartsWithProgName()
    ensures DefaultMessage == ProgNameField + (", version " + VersionField)
    ensures FieldAt(DefaultMessage) == Some(ProgNameField)
  {
    assert VersionField[2] != DefaultMessage[2];
    assert PackageNameField[3] != DefaultMessage[3];
  }

  lemma VersionFieldIsItsOwnField()
    ensures FieldAt(VersionField) == Some(VersionField)
  {
  }

  /** Literal text without `%` followed by a field. */
  lemma SplitTextField(text: string, f2: string)
    requires FieldAt(f2) == Some(f2)
    requires forall k :: 0 <= k < |text| ==> text[k] != '%'
    ensures SplitFrom(text + f2, []) == [text, f2, []]
  {
    var tail := text + f2;
    forall o | 0 <= o < |text|
      ensures FieldAt(tail[o..]).None?
    {
      assert tail[o..][0] == text[o];
    }
    SplitFromLiteral(text, f2, []);
    assert [] + text == text;
    SplitFromFieldStep(f2, text);
    assert f2[|f2|..] == [];
  }

  /** A template that starts with a field splits into an empty literal, that
      field, and the split of what follows it. */
  lemma SplitLeadingField(f: string, rest: string)
    requires FieldAt(f + rest) == Some(f)
    ensures SplitFields(f + rest) == [[], f] + SplitFrom(rest, [])
  {
    SplitFromFieldStep(f + rest, []);
    assert (f + rest)[|f|..] == rest;
  }

  /** A template made of a field, literal text without `%`, and a field. */
  lemma SplitFieldTextField(f1: string, text: string, f2: string)
    requires FieldAt(f1 + (text + f2)) == Some(f1)
    requires FieldAt(f2) == Some(f2)
    requires forall k :: 0 <= k < |text| ==> text[k] != '%'
    ensures SplitFields(f1 + (text + f2)) == ["", f1, text, f2, ""]
  {
    SplitTextField(text, f2);
    SplitLeadingField(f1, text + f2);
  }

  lemma DefaultMessageSplit()
    ensures SplitFields(DefaultMessage) == ["", ProgNameField, ", version ", VersionField, ""]
  {
    DefaultMessageStartsWithProgName();
    VersionFieldIsItsOwnField();
    SplitFieldTextField(ProgNameField, ", version ", VersionField);
  }

  // ------------------------------------------------------------- rendering

  /** The values substituted for the four fields. */
  datatype VersionInfo = VersionInfo(version: string, packageName: Option<string>, progName: string, envInfo: string)

  /** `%s` of the value bound to a field; a missing package name prints as `None`. */
  function FieldValue(info: VersionInfo, field: string): string
    requires IsField(field)
  {
    if field == VersionField then info.version
    else if field == PackageNameField then (if info.packageName.Some? then info.packageName.value else "None")
    else if field == ProgNameField then info.progName
    else info.envInfo
  }

  function SubstituteParts(parts: seq<string>, info: VersionInfo): string
  {
    if parts == [] then []
    else
      SubstituteParts(parts[..|parts| - 1], info) + Substituted(info, parts[|parts| - 1])
  }

  /** `template % {"version": ..., "package_name": ..., "prog_name": ..., "env_info": ...}`
      for templates whose only directives are the four fields. */
  function Render(template: string, info: VersionInfo): string
  {
    SubstituteParts(SplitFields(template), info)
  }

  /** The values that render each field as itself. */
  const FieldsAsValues: VersionInfo := VersionInfo(VersionField, Some(PackageNameField), ProgNameField, EnvInfoField)

  lemma {:induction false} SubstituteFieldsAsValues(parts: seq<string>)
    ensures SubstituteParts(parts, FieldsAsValues) == Concat(parts)
    decreases |parts|
  {
    if parts != [] {
      SubstituteFieldsAsValues(parts[..|parts| - 1]);
    }
  }

  /** Rendering touches only field occurrences: binding every field to its own
      text gives back the template. */
  lemma RenderChangesOnlyFields(t: string)
    ensures Render(t, FieldsAsValues) == t
  {
    SubstituteFieldsAsValues(SplitFields(t));
    SplitFieldsJoin(t);
  }

  /** A template without fields renders as itself, whatever the values. */
  lemma RenderWithoutFields(t: string, info: VersionInfo)
    requires NoField(t)
    ensures Render(t, info) == t
  {
    NoFieldSplitsToItself(t);
    SubstitutePrefixStep([t], 0, info);
    assert [t][..1] == [t] && [t][..0] == [];
    if t != [] {
      assert t[0..] == t;
      assert t <= t;
    }
  }

  /** What rendering puts in place of one split fragment. */
  function Substituted(info: VersionInfo, part: string): string
  {
    if IsField(part) then FieldValue(info, part) else part
  }

  lemma SubstitutePrefixStep(parts: seq<string>, k: nat, info: VersionInfo)
    requires k < |parts|
    ensures SubstituteParts(parts[..k + 1], info) == SubstituteParts(parts[..k], info) + Substituted(info, parts[k])
  {
    assert parts[..k + 1][..k] == parts[..k];
  }

  lemma SubstituteFiveParts(parts: seq<string>, info: VersionInfo)
    requires |parts| == 5
    ensures SubstituteParts(parts, info)
         == Substituted(info, parts[0]) + Substituted(info, parts[1]) + Substituted(info, parts[2])
          + Substituted(info, parts[3]) + Substituted(info, parts[4])
  {
    calc {
      SubstituteParts(parts, info);
      == { assert parts[..5] == parts; }
      SubstituteParts(parts[..5], info);
      == { SubstitutePrefixStep(parts, 4, info); }
      SubstituteParts(parts[..4], info) + Substituted(info, parts[4]);
      == { SubstitutePrefixStep(parts, 3, info); }
      SubstituteParts(parts[..3], info) + Substituted(info, parts[3]) + Substituted(info, parts[4]);
      == { SubstitutePrefixStep(parts, 2, info); }
      SubstituteParts(parts[..2], info) + Substituted(info, parts[2]) + Substituted(info, parts[3])
        + Substituted(info, parts[4]);
      == { SubstitutePrefixStep(parts, 1, info); }
      SubstituteParts(parts[..1], info) + Substituted(info, parts[1]) + Substituted(info, parts[2])
        + Substituted(info, parts[3]) + Substituted(info, parts[4]);
      == { SubstitutePrefixStep(parts, 0, info); assert parts[..0] == [];
           assert SubstituteParts(parts[..1], info) == [] + Substituted(info, parts[0]) == Substituted(info, parts[0]); }
      Substituted(info, parts[0]) + Substituted(info, parts[1]) + Substituted(info, parts[2])
        + Substituted(info, parts[3]) + Substituted(info, parts[4]);
    }
  }

  /** The default template renders as `<prog_name>, version <version>`. */
  lemma RenderDefaultMessage(info: VersionInfo)
    ensures Render(DefaultMessage, info) == info.progName + ", version " + info.version
  {
    var parts := ["", ProgNameField, ", version ", VersionField, ""];
    calc {
      Render(DefaultMessage, info);
      == { DefaultMessageSplit(); }
      SubstituteParts(parts, info);
      == { SubstituteFiveParts(parts, info); }
      Substituted(info, "") + Substituted(info, ProgNameField) + Substituted(info, ", version ")
        + Substituted(info, VersionField) + Substituted(info, "");
      == { assert !IsField("") && !IsField(", version "); }
      info.progName + ", version " + info.version;
    }
  }

  // ---------------------------------------------------------- auto-detection

  /** The `__name__` and `__package__` globals of the frame that first reads the
      option's package name (the getter's caller, past the `cached_property`
      frame). */
  datatype FrameGlobals = FrameGlobals(name: Option<string>, package: Option<string>)

  /** What auto-detection reads: the globals of the frame that first reads the
      package name (if a frame was found), the installed distributions and their versions, the root command's
      name, and the scrubbed environment profile. */
  datatype Environment = Environment(
    caller: Option<FrameGlobals>,
    installed: map<string, string>,
    rootInfoName: string,
    profile: string)

  datatype VersionError =
    | NoPackageName                        // no name, or an empty one: the lookup itself fails
    | NotInstalled(name: string)           // no distribution of that name
    | UnknownVersion(dist: string)         // installed, but with an empty version

  /** The package name guessed from that frame's globals: `__name__`, or
      `__package__` when run as `__main__`, cut at its first dot. */
  function DerivePackageName(caller: Option<FrameGlobals>): (r: Option<string>)
    ensures caller.None? ==> r.None?
    ensures caller.Some? ==>
      var source := if caller.value.name == Some("__main__") then caller.value.package else caller.value.name;
      && (r.None? <==> source.None?)
      && (r.Some? ==> r.value <= source.value)
      && (source.Some? && Absent(source.value, ".") ==> r == source)
      && (source.Some? && !Absent(source.value, ".") ==> FirstAt(source.value, ".", |r.value|))
    ensures r.Some? ==> forall k :: 0 <= k < |r.value| ==> r.value[k] != '.'
  {
    match caller
    case None => None
    case Some(g) =>
      var source := if g.name == Some("__main__") then g.package else g.name;
      if source.Some? && source.value != [] then
        var p := Before(source.value, ".");
        assert forall k :: 0 <= k < |p| ==> p[k] != '.' by {
          forall k | 0 <= k < |p| ensures p[k] != '.' {
            assert !OccursAt(p, ".", k);
            assert p[k..k + 1] == [p[k]];
          }
        }
        Some(p)
      else
        source
  }

  /** A frame whose module is `pkg.sub`, for a top-level package `pkg`, gives
      `pkg` whatever its `__package__`. The frame that first reads the package
      name lies in the option's own module, `click_extra.version`, so the name
      auto-detected there is `click_extra`. */
  lemma SubmoduleGivesTopPackage(pkg: string, sub: string, package: Option<string>)
    requires Absent(pkg, ".")
    ensures DerivePackageName(Some(FrameGlobals(Some(pkg + "." + sub), package))) == Some(pkg)
  {
    var source := pkg + "." + sub;
    assert source[|pkg|] == '.';
    assert source != "__main__";
    assert source[..|pkg|] == pkg;
    assert OccursAt(source, ".", |pkg|) by {
      assert source[|pkg|..|pkg| + 1] == [source[|pkg|]];
    }
    forall j | 0 <= j < |pkg|
      ensures !OccursAt(source, ".", j)
    {
      OccursAtCommonPrefix(source, pkg, |pkg|, ".", j);
    }
    var r := DerivePackageName(Some(FrameGlobals(Some(source), package)));
    FirstAtUnique(source, ".", |pkg|, |r.value|);
  }

  /** `importlib.metadata.version(name)` with its two failure modes, the
      `is not installed` one and the empty version. With no name, or an empty
      one, there is nothing to look up, and the error is neither of those. */
  function LookupVersion(name: Option<string>, installed: map<string, string>): (r: Result<string, VersionError>)
    ensures r.Success? <==> name.Some? && name.value != [] && name.value in installed && installed[name.value] != []
    ensures r.Success? ==> r.value == installed[name.value]
    ensures name.None? || name.value == [] ==> r == Failure(NoPackageName)
    ensures name.Some? && name.value != [] && name.value !in installed ==> r == Failure(NotInstalled(name.value))
    ensures name.Some? && name.value != [] && name.value in installed && installed[name.value] == [] ==>
      r == Failure(UnknownVersion(name.value))
  {
    if name.None? || name.value == [] then Failure(NoPackageName)
    else if name.value !in installed then Failure(NotInstalled(name.value))
    else if installed[name.value] == [] then Failure(UnknownVersion(name.value))
    else Success(installed[name.value])
  }

  /** A constructor argument counts only when it is truthy: given and non-empty. */
  function Given(arg: Option<string>): Option<string>
  {
    if arg.Some? && arg.value != [] then arg else None
  }

  // ------------------------------------------------------------------ option

  /** The help text of the version option. */
  const VersionHelp: string := "Show the version and exit."

  class VersionOption {
    var paramDecls: seq<string>
    var isFlag: bool
    var exposeValue: bool
    var isEager: bool
    var help: string
    // None: the caller passed `callback=None`, and the option has no callback.
    var callback: Option<Cli.Callback>
    // Values given to the constructor in place of auto-detection; None: detect.
    var version: Option<string>
    var packageName: Option<string>
    var progName: Option<string>
    var envInfo: Option<string>
    var message: string
    var versionStyle: Option<Style>
    var packageNameStyle: Option<Style>
    var progNameStyle: Option<Style>
    var envInfoStyle: Option<Style>
    var messageStyle: Option<Style>

    constructor (
      paramDecls: seq<string>,
      version: Option<string>, packageName: Option<string>, progName: Option<string>,
      envInfo: Option<string>, message: Option<string>,
      versionStyle: Option<Style>, packageNameStyle: Option<Style>, progNameStyle: Option<Style>,
      envInfoStyle: Option<Style>, messageStyle: Option<Style>,
      isFlag: Cli.Kwarg<bool>, exposeValue: Cli.Kwarg<bool>, isEager: Cli.Kwarg<bool>,
      help: Cli.Kwarg<string>, callback: Cli.Kwarg<Option<Cli.Callback>>)
      ensures this.paramDecls == if paramDecls == [] then ["--version"] else paramDecls
      ensures this.version == Given(version) && this.packageName == Given(packageName)
      ensures this.progName == Given(progName) && this.envInfo == Given(envInfo)
      ensures this.message == if Given(message).Some? then message.value else DefaultMessage
      ensures this.versionStyle == versionStyle && this.packageNameStyle == packageNameStyle
      ensures this.progNameStyle == progNameStyle && this.envInfoStyle == envInfoStyle
      ensures this.messageStyle == messageStyle
      ensures this.isFlag == (isFlag.Omitted? || isFlag.value)
      ensures this.exposeValue == (exposeValue.Passed? && exposeValue.value)
      ensures this.isEager == (isEager.Omitted? || isEager.value)
      ensures this.help == if help.Passed? then help.value else VersionHelp
      ensures callback.Omitted? ==> this.callback == Some(Cli.PrintAndExit)
      ensures callback.Passed? ==> this.callback == callback.value
      // A truthy value given here wins over auto-detection, for every environment.
      ensures Given(packageName).Some? ==> forall env :: ResolvedPackageName(env) == packageName
      ensures Given(packageName).None? ==> forall env :: ResolvedPackageName(env) == DerivePackageName(env.caller)
      ensures Given(version).Some? ==> forall env :: ResolvedVersion(env) == Success(version.value)
      ensures Given(version).None? ==>
        forall env :: ResolvedVersion(env) == LookupVersion(ResolvedPackageName(env), env.installed)
      ensures Given(progName).Some? ==> forall env :: ResolvedProgName(env) == progName.value
      ensures Given(progName).None? ==> forall env :: ResolvedProgName(env) == env.rootInfoName
      ensures Given(envInfo).Some? ==> forall env :: ResolvedEnvInfo(env) == envInfo.value
      ensures Given(envInfo).None? ==> forall env :: ResolvedEnvInfo(env) == env.profile
    {
      this.paramDecls := Cli.ParamDecls(paramDecls, ["--version"]);
      this.version := Given(version);
      this.packageName := Given(packageName);
      this.progName := Given(progName);
      this.envInfo := Given(envInfo);
      this.message := if Given(message).Some? then message.value else DefaultMessage;
      this.versionStyle := versionStyle;
      this.packageNameStyle := packageNameStyle;
      this.progNameStyle := progNameStyle;
      this.envInfoStyle := envInfoStyle;
      this.messageStyle := messageStyle;
      this.isFlag := Cli.ValueOr(isFlag, true);
      this.exposeValue := Cli.ValueOr(exposeValue, false);
      this.isEager := Cli.ValueOr(isEager, true);
      this.help := Cli.ValueOr(help, VersionHelp);
      this.callback := Cli.ValueOr(callback, Some(Cli.PrintAndExit));
    }

    function CurrentStyles(): Styles
      reads this
    {
      Styles(versionStyle, packageNameStyle, progNameStyle, envInfoStyle, messageStyle)
    }

    /** The package name: the one given, otherwise the derived one. */
    function ResolvedPackageName(env: Environment): (r: Option<string>)
      reads this
      ensures packageName.Some? ==> r == packageName
      ensures packageName.None? ==> r == DerivePackageName(env.caller)
    {
      if packageName.Some? then packageName else DerivePackageName(env.caller)
    }

    /** The version: the one given, otherwise the installed package's. */
    function ResolvedVersion(env: Environment): (r: Result<string, VersionError>)
      reads this
      ensures r.Success? <==> version.Some? || LookupVersion(ResolvedPackageName(env), env.installed).Success?
      ensures version.Some? ==> r == Success(version.value)
      ensures version.None? ==> r == LookupVersion(ResolvedPackageName(env), env.installed)
    {
      if version.Some? then Success(version.value) else LookupVersion(ResolvedPackageName(env), env.installed)
    }

    /** The program name: the one given, otherwise the root command's name. */
    function ResolvedProgName(env: Environment): (r: string)
      reads this
      ensures progName.Some? ==> r == progName.value
      ensures progName.None? ==> r == env.rootInfoName
    {
      if progName.Some? then progName.value else env.rootInfoName
    }

    /** The environment info: the one given, otherwise the scrubbed profile. */
    function ResolvedEnvInfo(env: Environment): (r: string)
      reads this
      ensures envInfo.Some? ==> r == envInfo.value
      ensures envInfo.None? ==> r == env.profile
    {
      if envInfo.Some? then envInfo.value else env.profile
    }

    function ResolvedInfo(env: Environment): Result<VersionInfo, VersionError>
      reads this
    {
      match ResolvedVersion(env)
      case Failure(e) => Failure(e)
      case Success(v) => Success(VersionInfo(v, ResolvedPackageName(env), ResolvedProgName(env), ResolvedEnvInfo(env)))
    }

    /** Styles a template (by default the option's message): fields with their
        own styles, other non-empty fragments with the message style. */
    method ColoredTemplate(template: Option<string>) returns (r: string)
      ensures r == Colored(CurrentStyles(), if template.Some? then template.value else message)
    {
      var t := if template.Some? then template.value else message;
      var parts := SplitFields(t);
      r := [];
      var i := 0;
      while i < |parts|
        invariant i <= |parts|
        invariant r == ColoredParts(CurrentStyles(), parts[..i])
      {
        var part := parts[i];
        assert parts[..i + 1][..i] == parts[..i];
        if part != [] {
          var style := StyleFor(CurrentStyles(), part);
          r := r + (if style.Some? then style.value(part) else part);
        }
        i := i + 1;
      }
      assert parts[..i] == parts;
    }

    /** Renders a template, by default the styled message. */
    function RenderMessage(template: Option<string>, info: VersionInfo): (r: string)
      reads this
      ensures template.Some? ==> r == Render(template.value, info)
      ensures template.None? ==> r == Render(Colored(CurrentStyles(), message), info)
      ensures template.None? && Unstyled(CurrentStyles()) ==> r == Render(message, info)
    {
      if template.Some? then Render(template.value, info)
      else if Unstyled(CurrentStyles()) then
        UnstyledTemplateUnchanged(CurrentStyles(), message);
        Render(Colored(CurrentStyles(), message), info)
      else Render(Colored(CurrentStyles(), message), info)
    }

    /** Records the four metadata entries on the context, the version right
        after the package name, as it depends on it; then, for a set flag outside
        resilient parsing, echoes the rendered message and exits. */
    method PrintAndExit(ctx: Cli.Context, value: bool, env: Environment) returns (raised: Option<VersionError>)
      modifies ctx`meta, ctx`echoed, ctx`exited
      ensures raised.Some? <==> ResolvedVersion(env).Failure?
      ensures raised.Some? ==> raised.value == ResolvedVersion(env).error
      ensures raised.Some? ==> ctx.meta == old(ctx.meta)[PackageNameKey := ResolvedPackageName(env)]
      ensures raised.None? ==> ctx.meta == old(ctx.meta)
        [PackageNameKey := ResolvedPackageName(env)]
        [VersionKey := Some(ResolvedVersion(env).value)]
        [ProgNameKey := Some(ResolvedProgName(env))]
        [EnvInfoKey := Some(ResolvedEnvInfo(env))]
      ensures var shown := raised.None? && value && !ctx.resilientParsing;
        && ctx.echoed == (if shown then old(ctx.echoed) + [RenderMessage(None, ResolvedInfo(env).value)] else old(ctx.echoed))
        && ctx.exited == (old(ctx.exited) || shown)
    {
      ctx.meta := ctx.meta[PackageNameKey := ResolvedPackageName(env)];
      var v := ResolvedVersion(env);
      if v.Failure? {
        return Some(v.error);
      }
      ctx.meta := ctx.meta[VersionKey := Some(v.value)];
      ctx.meta := ctx.meta[ProgNameKey := Some(ResolvedProgName(env))];
      ctx.meta := ctx.meta[EnvInfoKey := Some(ResolvedEnvInfo(env))];
      raised := None;
      if !value || ctx.resilientParsing {
        return;
      }
      ctx.echoed := ctx.echoed + [RenderMessage(None, ResolvedInfo(env).value)];
      ctx.exited := true;
    }
  }

  /** Without styles and with the stock message, `--version` prints
      `<prog_name>, version <version>`. */
  lemma DefaultVersionString(o: VersionOption, info: VersionInfo)
    requires Unstyled(o.CurrentStyles()) && o.message == DefaultMessage
    ensures o.RenderMessage(None, info) == info.progName + ", version " + info.version
  {
    UnstyledTemplateUnchanged(o.CurrentStyles(), DefaultMessage);
    RenderDefaultMessage(info);
  }
}
