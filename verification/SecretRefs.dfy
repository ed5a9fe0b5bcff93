/** Secret references: explicit spellings of an environment variable, and the
    textual form of a reference in a configuration document. */
module SecretRefs {
  import opened Text

  datatype SecretRef = Env(env: string) | File(file: string) | Exec(exec: seq<string>) | Inline(value: string)

  // ------------------------------------------------------------ names

  predicate IsAsciiAlpha(c: char)
  {
    'a' <= c <= 'z' || 'A' <= c <= 'Z'
  }

  predicate IsNameStart(c: char)
  {
    IsAsciiAlpha(c) || c == '_'
  }

  predicate IsNameChar(c: char)
  {
    IsNameStart(c) || '0' <= c <= '9'
  }

  predicate IsEnvName(s: string)
  {
    s != "" && IsNameStart(s[0]) && forall i :: 0 < i < |s| ==> IsNameChar(s[i])
  }

  /** Letters, digits and underscores, not starting with a digit. */
  predicate IsVariableName(s: string)
  {
    && s != "" && !('0' <= s[0] <= '9')
    && forall i :: 0 <= i < |s| ==>
         'A' <= s[i] <= 'Z' || 'a' <= s[i] <= 'z' || '0' <= s[i] <= '9' || s[i] == '_'
  }

  lemma EnvNameExactly(s: string)
    ensures IsEnvName(s) <==> IsVariableName(s)
  {
  }

  function NormalizeEnvName(raw: string): Option<string>
  {
    var trimmed := Trim(raw);
    if trimmed == "" then None else if !IsEnvName(trimmed) then None else Some(trimmed)
  }

  // ------------------------------------------------------------ parsers

  function StripPrefix(s: string, c: char): Option<string>
  {
    if s != "" && s[0] == c then Some(s[1..]) else None
  }

  function StripSuffix(s: string, c: char): Option<string>
  {
    if s != "" && s[|s| - 1] == c then Some(s[..|s| - 1]) else None
  }

  /** The text between braces, trimmed, if the whole is in braces. */
  function Unbraced(s: string): string
  {
    var rest := StripPrefix(s, '{');
    var inner := if rest.None? then None else StripSuffix(rest.value, '}');
    if inner.None? then s else Trim(inner.value)
  }

  function ParseDollar(raw: string): Option<string>
  {
    var rest := StripPrefix(Trim(raw), '$');
    if rest.None? then None
    else
      var stripped := Trim(rest.value);
      if stripped == "" then None else NormalizeEnvName(Unbraced(stripped))
  }

  function ParseEnvPrefix(raw: string): Option<string>
  {
    var trimmed := Trim(raw);
    if |trimmed| < 4 || ToAsciiLower(trimmed[..4]) != "env:" then None else NormalizeEnvName(trimmed[4..])
  }

  function ParsePercent(raw: string): Option<string>
  {
    var body := StripPrefix(Trim(raw), '%');
    var inner := if body.None? then None else StripSuffix(body.value, '%');
    if inner.None? then None else NormalizeEnvName(inner.value)
  }

  function ParseExplicit(raw: string): Option<string>
  {
    var dollar := ParseDollar(raw);
    var prefix := ParseEnvPrefix(raw);
    if dollar.Some? then dollar else if prefix.Some? then prefix else ParsePercent(raw)
  }

  // ------------------------------------------------------------ spellings

  /** The four spellings of a variable name, each with white space allowed
      wherever a blank stands. */
  datatype Form = Dollar | Braced | Prefixed(tag: string) | Percent

  predicate ValidForm(form: Form)
  {
    form.Prefixed? ==> |form.tag| == 4 && ToAsciiLower(form.tag) == "env:"
  }

  function Body(form: Form, w: string, name: string, w': string): string
  {
    match form
    case Dollar => "$" + (w + name)
    case Braced => "$" + (w + ("{" + (w' + name)))
    case Prefixed(tag) => tag + (w + name)
    case Percent => "%" + (w + name)
  }

  function Close(form: Form, v: string): string
  {
    match form
    case Dollar => ""
    case Braced => v + "}"
    case Prefixed(_) => ""
    case Percent => v + "%"
  }

  ghost predicate SpelledBy(raw: string, name: string, form: Form, a: string, w: string, w': string, v: string, b: string)
  {
    && Blank(a) && Blank(w) && Blank(w') && Blank(v) && Blank(b)
    && ValidForm(form)
    && IsVariableName(name)
    && raw == a + (Body(form, w, name, w') + Close(form, v)) + b
  }

  ghost predicate Spelled(raw: string, name: string)
  {
    exists form, a, w, w', v, b :: SpelledBy(raw, name, form, a, w, w', v, b)
  }

  lemma EnvNameIsTrimmed(name: string)
    requires IsEnvName(name)
    ensures name != "" && Trimmed(name) && name[0] != '{' && name[0] != '$' && name[0] != '%'
    ensures Trim(name) == name
  {
    TrimOfTrimmed(name);
  }

  lemma NormalizePadded(a: string, name: string, b: string)
    requires Blank(a) && Blank(b) && IsEnvName(name)
    ensures NormalizeEnvName(a + name + b) == Some(name)
  {
    hide IsEnvName;
    TrimPad(a, name, b);
    EnvNameIsTrimmed(name);
  }

  lemma NormalizeSplit(raw: string) returns (a: string, b: string)
    requires NormalizeEnvName(raw).Some?
    ensures Blank(a) && Blank(b) && IsEnvName(NormalizeEnvName(raw).value)
    ensures raw == a + (NormalizeEnvName(raw).value + b)
  {
    a, b := TrimSplit(raw);
    assert raw == a + (Trim(raw) + b);
  }

  /** The trimmed raw text of a spelling is its core. */
  lemma CoreTrim(a: string, core: string, b: string)
    requires Blank(a) && Blank(b) && core != "" && Trimmed(core)
    ensures Trim(a + core + b) == core
  {
    TrimPad(a, core, b);
    TrimOfTrimmed(core);
  }

  lemma DollarSpelling(w: string, name: string)
    requires Blank(w) && IsEnvName(name)
    ensures var core := "$" + (w + name); Trimmed(core) && ParseExplicitCore(core) == Some(name)
  {
    EnvNameIsTrimmed(name);
    var core := "$" + (w + name);
    assert core[1..] == w + name + "";
    assert core[|core| - 1] == name[|name| - 1];
    CoreTrim(w, name, "");
    assert Unbraced(name) == name;
  }

  /** The parser after the outer trim. */
  function ParseExplicitCore(core: string): Option<string>
  {
    if core != "" && core[0] == '$' then
      var stripped := Trim(core[1..]);
      if stripped == "" then None else NormalizeEnvName(Unbraced(stripped))
    else if |core| >= 4 && ToAsciiLower(core[..4]) == "env:" then NormalizeEnvName(core[4..])
    else if |core| >= 2 && core[0] == '%' && core[|core| - 1] == '%' then NormalizeEnvName(core[1..|core| - 1])
    else None
  }

  /** At most one of the three parsers can succeed: they differ in the first character. */
  lemma ParsersAreDisjoint(raw: string)
    ensures ParseExplicit(raw) == ParseExplicitCore(Trim(raw))
  {
    hide NormalizeEnvName;
    hide Unbraced;
    var t := Trim(raw);
    hide Trim;
    if |t| >= 4 && ToAsciiLower(t[..4]) == "env:" {
      assert AsciiLower(t[0]) == 'e';
    }
    if |t| >= 2 && t[0] == '%' && t[|t| - 1] == '%' {
      assert t[1..][..|t[1..]| - 1] == t[1..|t| - 1];
    }
  }

  lemma BracedSpelling(w: string, w': string, name: string, v: string)
    requires Blank(w) && Blank(w') && Blank(v) && IsEnvName(name)
    ensures var core := "$" + (w + ("{" + (w' + name))) + (v + "}");
      Trimmed(core) && ParseExplicitCore(core) == Some(name)
  {
    hide NormalizeEnvName;
    EnvNameIsTrimmed(name);
    var core := "$" + (w + ("{" + (w' + name))) + (v + "}");
    var braced := "{" + ((w' + name) + v) + "}";
    assert core[1..] == w + braced + "";
    assert core[|core| - 1] == '}';
    assert braced[0] == '{' && braced[|braced| - 1] == '}';
    CoreTrim(w, braced, "");
    assert braced[1..][..|braced[1..]| - 1] == w' + name + v;
    CoreTrim(w', name, v);
    NormalizePadded("", name, "");
    assert "" + name + "" == name;
  }

  lemma PrefixedSpelling(tag: string, w: string, name: string)
    requires |tag| == 4 && ToAsciiLower(tag) == "env:" && Blank(w) && IsEnvName(name)
    ensures var core := tag + (w + name); Trimmed(core) && ParseExplicitCore(core) == Some(name)
  {
    hide NormalizeEnvName;
    EnvNameIsTrimmed(name);
    var core := tag + (w + name);
    assert AsciiLower(tag[0]) == 'e';
    assert core[0] == tag[0] && core[|core| - 1] == name[|name| - 1];
    assert core[..4] == tag;
    assert core[4..] == w + name + "";
    NormalizePadded(w, name, "");
  }

  lemma PercentSpelling(w: string, name: string, v: string)
    requires Blank(w) && Blank(v) && IsEnvName(name)
    ensures var core := "%" + (w + name) + (v + "%"); Trimmed(core) && ParseExplicitCore(core) == Some(name)
  {
    hide NormalizeEnvName;
    var core := "%" + (w + name) + (v + "%");
    assert core[0] == '%' && core[|core| - 1] == '%';
    assert |core| >= 4 ==> ToAsciiLower(core[..4])[0] == AsciiLower('%');
    assert core[1..|core| - 1] == w + name + v;
    NormalizePadded(w, name, v);
  }

  lemma SpelledParses(raw: string, name: string, form: Form, a: string, w: string, w': string, v: string, b: string)
    requires SpelledBy(raw, name, form, a, w, w', v, b)
    ensures ParseExplicit(raw) == Some(name)
  {
    hide ParseExplicit;
    hide ParseExplicitCore;
    hide IsEnvName;
    hide IsVariableName;
    EnvNameExactly(name);
    hide Trim;
    var core := Body(form, w, name, w') + Close(form, v);
    ParsersAreDisjoint(raw);
    match form {
      case Dollar =>
        assert core == "$" + (w + name);
        DollarSpelling(w, name);
      case Braced => BracedSpelling(w, w', name, v);
      case Prefixed(tag) =>
        assert core == tag + (w + name);
        PrefixedSpelling(tag, w, name);
      case Percent => PercentSpelling(w, name, v);
    }
    CoreTrim(a, core, b);
  }

  // ------------------------------------------------- parsed texts are spelled

  lemma UnbracedSplit(s: string) returns (w: string, v: string)
    requires Unbraced(s) != s
    ensures Blank(w) && Blank(v) && s == "{" + (w + (Unbraced(s) + (v + "}")))
  {
    hide Trim;
    var inner := s[1..][..|s| - 2];
    w, v := TrimSplit(inner);
    BraceRegroup(s, w, Trim(inner), v);
  }

  lemma BraceRegroup(s: string, w: string, t: string, v: string)
    requires |s| >= 2 && s[0] == '{' && s[|s| - 1] == '}' && s[1..][..|s| - 2] == w + t + v
    ensures s == "{" + (w + (t + (v + "}")))
  {
    assert s == "{" + s[1..][..|s| - 2] + "}";
  }

  lemma PlainDollar(core: string, w: string, x: string, name: string, y: string, b: string)
    requires core == "$" + (w + (x + (name + y)) + b)
    requires Blank(w) && Blank(x) && Blank(y) && Blank(b) && IsEnvName(name)
    ensures SpelledBy(core, name, Dollar, "", w + x, "", "", y + b)
  {
    hide IsEnvName;
    hide IsVariableName;
    EnvNameExactly(name);
    hide IsWhitespace;
    assert core == "" + (("$" + ((w + x) + name)) + "") + (y + b);
  }

  lemma BracedDollar(core: string, w: string, w': string, x: string, name: string, y: string, v: string, b: string)
    requires core == "$" + (w + ("{" + (w' + ((x + (name + y)) + (v + "}")))) + b)
    requires Blank(w) && Blank(w') && Blank(x) && Blank(y) && Blank(v) && Blank(b) && IsEnvName(name)
    ensures SpelledBy(core, name, Braced, "", w, w' + x, y + v, b)
  {
    hide IsEnvName;
    hide IsVariableName;
    EnvNameExactly(name);
    hide IsWhitespace;
    assert core == "" + (("$" + (w + ("{" + ((w' + x) + name)))) + ((y + v) + "}")) + b;
  }

  lemma ParsedDollarIsSpelled(core: string, name: string)
    requires core != "" && core[0] == '$' && ParseExplicitCore(core) == Some(name)
    ensures exists form, w, w', v, b :: SpelledBy(core, name, form, "", w, w', v, b)
  {
    hide IsEnvName;
    hide SpelledBy;
    hide NormalizeEnvName;
    hide Unbraced;
    hide Trim;
    var w, b := TrimSplit(core[1..]);
    var stripped := Trim(core[1..]);
    assert core == "$" + core[1..];
    var x, y := NormalizeSplit(Unbraced(stripped));
    if Unbraced(stripped) == stripped {
      PlainDollar(core, w, x, name, y, b);
    } else {
      var w', v := UnbracedSplit(stripped);
      BracedDollar(core, w, w', x, name, y, v, b);
    }
  }

  lemma ParsedPrefixIsSpelled(core: string, name: string)
    requires |core| >= 4 && ToAsciiLower(core[..4]) == "env:" && NormalizeEnvName(core[4..]) == Some(name)
    ensures exists form, w, w', v, b :: SpelledBy(core, name, form, "", w, w', v, b)
  {
    hide IsEnvName;
    hide IsVariableName;
    EnvNameExactly(name);
    hide NormalizeEnvName;
    var w, b := NormalizeSplit(core[4..]);
    assert core == core[..4] + core[4..];
    assert core == "" + (Body(Prefixed(core[..4]), w, name, "") + "") + b;
    assert SpelledBy(core, name, Prefixed(core[..4]), "", w, "", "", b);
  }

  lemma ParsedPercentIsSpelled(core: string, name: string)
    requires |core| >= 2 && core[0] == '%' && core[|core| - 1] == '%'
    requires NormalizeEnvName(core[1..|core| - 1]) == Some(name)
    ensures exists form, w, w', v, b :: SpelledBy(core, name, form, "", w, w', v, b)
  {
    hide IsEnvName;
    hide IsVariableName;
    EnvNameExactly(name);
    hide NormalizeEnvName;
    var w, v := NormalizeSplit(core[1..|core| - 1]);
    assert core == "%" + core[1..|core| - 1] + "%";
    assert core == "" + (Body(Percent, w, name, "") + (v + "%")) + "";
    assert SpelledBy(core, name, Percent, "", w, "", v, "");
  }

  lemma ParsedIsSpelled(raw: string, name: string)
    requires ParseExplicit(raw) == Some(name)
    ensures Spelled(raw, name)
  {
    hide SpelledBy;
    hide NormalizeEnvName;
    hide Unbraced;
    hide ParseExplicit;
    ParsersAreDisjoint(raw);
    var a, b := TrimSplit(raw);
    var core := Trim(raw);
    hide Trim;
    if core[0] == '$' {
      ParsedDollarIsSpelled(core, name);
    } else if |core| >= 4 && ToAsciiLower(core[..4]) == "env:" {
      ParsedPrefixIsSpelled(core, name);
    } else {
      ParsedPercentIsSpelled(core, name);
    }
    var form, w, w', v, b' :| SpelledBy(core, name, form, "", w, w', v, b');
    PadSpelling(raw, core, name, form, a, w, w', v, b', b);
  }

  lemma PadSpelling(raw: string, core: string, name: string, form: Form, a: string, w: string, w': string,
                    v: string, b': string, b: string)
    requires SpelledBy(core, name, form, "", w, w', v, b') && Blank(a) && Blank(b) && raw == a + core + b
    ensures SpelledBy(raw, name, form, a, w, w', v, b' + b)
  {
    hide IsEnvName;
    hide Body;
    hide Close;
    hide ValidForm;
    var body := Body(form, w, name, w') + Close(form, v);
    assert raw == a + body + (b' + b);
  }

  /** A text is an explicit reference to a variable exactly when it spells one. */
  lemma ExplicitExactly(raw: string, name: string)
    ensures ParseExplicit(raw) == Some(name) <==> Spelled(raw, name)
  {
    hide ParseExplicit;
    hide SpelledBy;
    if ParseExplicit(raw) == Some(name) {
      ParsedIsSpelled(raw, name);
    }
    if Spelled(raw, name) {
      var form, a, w, w', v, b :| SpelledBy(raw, name, form, a, w, w', v, b);
      SpelledParses(raw, name, form, a, w, w', v, b);
    }
  }

  function ExplicitEnvName(r: SecretRef): Option<string>
  {
    match r
    case Env(env) => Some(env)
    case Inline(value) => ParseExplicit(value)
    case File(_) => None
    case Exec(_) => None
  }

  // ------------------------------------------------------------ documents

  datatype Field = Null | Words(text: string) | List(items: seq<string>) | Other

  datatype Doc = Str(text: string) | Table(fields: map<string, Field>) | Scalar

  datatype Error = UnexpectedType | UnknownField | WrongFieldType | NoReference | SeveralReferences | EmptyCommand | EmptyProgram

  function Serialize(r: SecretRef): Doc
  {
    match r
    case Inline(value) => Str(value)
    case Env(env) => Table(map["env" := Words(env)])
    case File(file) => Table(map["file" := Words(file)])
    case Exec(exec) => Table(map["exec" := List(exec)])
  }

  function Classify(value: string): SecretRef
  {
    var name := ParseExplicit(value);
    if name.Some? then Env(name.value) else Inline(value)
  }

  function FieldOf(fields: map<string, Field>, name: string): Field
  {
    if name in fields then fields[name] else Null
  }

  function NonEmptyText(field: Field): Option<string>
  {
    if field.Words? && Trim(field.text) != "" then Some(Trim(field.text)) else None
  }

  function Deserialize(doc: Doc): Result<SecretRef, Error>
  {
    match doc
    case Scalar => Err(UnexpectedType)
    case Str(value) => Ok(Classify(value))
    case Table(fields) =>
      if !(fields.Keys <= {"env", "file", "exec"}) then Err(UnknownField)
      else
        var envField, fileField, execField := FieldOf(fields, "env"), FieldOf(fields, "file"), FieldOf(fields, "exec");
        if envField.List? || envField.Other? || fileField.List? || fileField.Other? || execField.Words? || execField.Other?
        then Err(WrongFieldType)
        else FromTable(NonEmptyText(envField), NonEmptyText(fileField), execField)
  }

  function FromTable(env: Option<string>, file: Option<string>, exec: Field): Result<SecretRef, Error>
  {
    if env.Some? && file.None? && exec.Null? then Ok(Env(env.value))
    else if env.None? && file.Some? && exec.Null? then Ok(File(file.value))
    else if env.None? && file.None? && exec.List? then
      if exec.items == [] then Err(EmptyCommand)
      else if Trim(exec.items[0]) == "" then Err(EmptyProgram)
      else Ok(Exec(exec.items))
    else if env.None? && file.None? && exec.Null? then Err(NoReference)
    else Err(SeveralReferences)
  }

  predicate OneOf(a: bool, b: bool, c: bool)
  {
    (if a then 1 else 0) + (if b then 1 else 0) + (if c then 1 else 0) == 1
  }

  /** The fields have the right types and no others are there. */
  predicate WellTyped(fields: map<string, Field>)
  {
    forall name :: name in fields ==>
      match fields[name]
      case Null => name == "env" || name == "file" || name == "exec"
      case Words(_) => name == "env" || name == "file"
      case List(_) => name == "exec"
      case Other => false
  }

  /** A table is accepted exactly when it is well typed and has exactly one of a
      non-blank variable, a non-blank file and a command with a non-blank program;
      a command is counted even if it is then refused. */
  lemma TableAcceptedExactly(fields: map<string, Field>)
    ensures Deserialize(Table(fields)).Ok? <==>
      && WellTyped(fields)
      && OneOf(NonEmptyText(FieldOf(fields, "env")).Some?, NonEmptyText(FieldOf(fields, "file")).Some?,
               FieldOf(fields, "exec").List?)
      && (forall items :: FieldOf(fields, "exec") == List(items) ==> items != [] && !Blank(items[0]))
  {
    hide Trim;
    WellTypedExactly(fields);
    var exec := FieldOf(fields, "exec");
    if exec.List? && exec.items != [] {
      BlankTrim(exec.items[0]);
    }
  }

  lemma WellTypedExactly(fields: map<string, Field>)
    ensures WellTyped(fields) <==>
      && fields.Keys <= {"env", "file", "exec"}
      && !(FieldOf(fields, "env").List? || FieldOf(fields, "env").Other? || FieldOf(fields, "file").List?
           || FieldOf(fields, "file").Other? || FieldOf(fields, "exec").Words? || FieldOf(fields, "exec").Other?)
  {
    if WellTyped(fields) {
      assert forall name :: name in fields ==> name == "env" || name == "file" || name == "exec";
    }
  }

  /** A reference that its textual form can carry. */
  predicate Canonical(r: SecretRef)
  {
    match r
    case Env(env) => env != "" && Trimmed(env)
    case File(file) => file != "" && Trimmed(file)
    case Exec(exec) => exec != [] && Trim(exec[0]) != ""
    case Inline(value) => ParseExplicit(value).None?
  }

  lemma TrimFixed(s: string)
    ensures Trim(s) == s <==> Trimmed(s)
  {
    var a, b := TrimSplit(s);
    if Trimmed(s) {
      TrimOfTrimmed(s);
    }
  }

  /** Writing a reference and reading it back gives it again exactly when it is canonical. */
  lemma RoundTripExactly(r: SecretRef)
    ensures Deserialize(Serialize(r)) == Ok(r) <==> Canonical(r)
  {
    hide ParseExplicit;
    hide Trim;
    match r {
      case Env(env) => TrimFixed(env);
      case File(file) => TrimFixed(file);
      case Exec(exec) =>
      case Inline(value) =>
    }
  }

  lemma EnvNameIsCanonical(raw: string)
    requires ParseExplicit(raw).Some?
    ensures IsEnvName(ParseExplicit(raw).value)
  {
  }

  /** Whatever is read from a document is canonical. */
  lemma DeserializedIsCanonical(doc: Doc)
    requires Deserialize(doc).Ok?
    ensures Canonical(Deserialize(doc).value)
  {
    hide ParseExplicit;
    match doc {
      case Str(value) =>
        if ParseExplicit(value).Some? {
          EnvNameIsCanonical(value);
          EnvNameIsTrimmed(ParseExplicit(value).value);
        }
      case Table(fields) =>
        var envField, fileField := FieldOf(fields, "env"), FieldOf(fields, "file");
        if envField.Words? {
          var a, b := TrimSplit(envField.text);
        }
        if fileField.Words? {
          var a, b := TrimSplit(fileField.text);
        }
    }
  }

  /** Every reference read from a document survives writing and reading again. */
  lemma DeserializedRoundTrips(doc: Doc)
    requires Deserialize(doc).Ok?
    ensures Deserialize(Serialize(Deserialize(doc).value)) == Deserialize(doc)
  {
    hide Canonical;
    hide Deserialize;
    hide Serialize;
    DeserializedIsCanonical(doc);
    RoundTripExactly(Deserialize(doc).value);
  }

  /** A reference does not survive: an inline text that spells a variable. */
  lemma InlineSpellingIsReread(a: string, name: string)
    requires Blank(a) && IsEnvName(name)
    ensures Deserialize(Serialize(Inline("$" + (a + name)))) == Ok(Env(name))
  {
    hide ParseExplicit;
    var raw := "$" + (a + name);
    assert raw == "" + (Body(Dollar, a, name, "") + "") + "";
    assert SpelledBy(raw, name, Dollar, "", a, "", "", "");
    ExplicitExactly(raw, name);
  }
}
