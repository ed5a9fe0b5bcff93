/** Resolution of secrets and the canonical form of an environment reference. The
    process environment, and what files and commands yield, are inputs. */
module Secrets {
  import opened Text
  import opened SecretRefs

  /** Everything outside the process that a secret can depend on. */
  datatype World = World(env: string -> Option<string>, external: SecretRef -> Result<Option<string>, Failure>)

  datatype Failure = InvalidEnvName(name: string) | EmptyExec | ReadFailed

  datatype Lookup = Absent | Missing | Found(value: string)

  function NonBlank(raw: string): Option<string>
  {
    if Trim(raw) == "" then None else Some(Trim(raw))
  }

  function ResolveEnv(world: World, name: string): Result<Option<string>, Failure>
  {
    if Trim(name) == "" then Err(InvalidEnvName(name))
    else
      var value := world.env(Trim(name));
      Ok(if value.None? then None else NonBlank(value.value))
  }

  function Resolve(world: World, r: SecretRef): Result<Option<string>, Failure>
  {
    var name := ExplicitEnvName(r);
    if name.Some? then ResolveEnv(world, name.value)
    else
      match r
      case Inline(value) => Ok(NonBlank(value))
      case Env(env) => ResolveEnv(world, env)
      case File(_) => world.external(r)
      case Exec(_) => world.external(r)
  }

  function ResolveLookup(world: World, r: Option<SecretRef>): Lookup
  {
    if r.None? || (r.value.Inline? && Trim(r.value.value) == "") then Absent
    else
      match Resolve(world, r.value)
      case Ok(Some(value)) => Found(value)
      case Ok(None) => Missing
      case Err(_) => Missing
  }

  function ReadNonEmptyEnv(world: World, name: Option<string>): Option<string>
  {
    if name.None? || Trim(name.value) == "" then None
    else
      var value := world.env(Trim(name.value));
      if value.None? then None else NonBlank(value.value)
  }

  function ResolveWithLegacyEnv(world: World, r: Option<SecretRef>, name: Option<string>): Option<string>
  {
    match ResolveLookup(world, r)
    case Found(value) => Some(value)
    case Missing => None
    case Absent => ReadNonEmptyEnv(world, name)
  }

  /** The variable a reference names, if it names one. */
  function RefEnvName(r: Option<SecretRef>): Option<string>
  {
    if r.None? then None else ExplicitEnvName(r.value)
  }

  /** The configured variable, if it is more than white space. */
  function Configured(name: Option<string>): Option<string>
  {
    if name.None? then None else NonBlank(name.value)
  }

  /** An inline text that names a variable is not blank. */
  lemma ExplicitIsNotBlank(r: SecretRef)
    requires ExplicitEnvName(r).Some? && r.Inline?
    ensures Trim(r.value) != ""
  {
  }

  /** A reference that names a variable resolves like the variable itself. */
  lemma NamedRefResolvesLikeVariable(world: World, r: SecretRef, name: Option<string>)
    requires ExplicitEnvName(r).Some?
    ensures ResolveWithLegacyEnv(world, Some(r), name) == ReadNonEmptyEnv(world, ExplicitEnvName(r))
  {
    hide ExplicitEnvName;
    hide Trim;
    if r.Inline? {
      ExplicitIsNotBlank(r);
    }
  }

  /** What a variable holds once trimmed, if more than white space. */
  ghost predicate Holds(world: World, variable: string, value: string)
  {
    && Trim(variable) != "" && value != ""
    && exists raw :: world.env(Trim(variable)) == Some(raw) && value == Trim(raw)
  }

  /** No reference at all: none, or an inline text of white space. */
  predicate Unset(r: Option<SecretRef>)
  {
    r.None? || (r.value.Inline? && Blank(r.value.value))
  }

  /** The variable whose content decides, if it is a variable that decides. */
  ghost predicate Decides(r: Option<SecretRef>, name: Option<string>, variable: string)
  {
    || (Unset(r) && name == Some(variable))
    || r == Some(Env(variable))
    || (r.Some? && r.value.Inline? && Spelled(r.value.value, variable))
  }

  /** An inline text that is a secret itself. */
  ghost predicate Literal(r: Option<SecretRef>, value: string)
  {
    && r.Some? && r.value.Inline? && !Unset(r)
    && value == Trim(r.value.value)
    && forall variable :: !Spelled(r.value.value, variable)
  }

  lemma HoldsExactly(world: World, variable: string, value: string)
    ensures ReadNonEmptyEnv(world, Some(variable)) == Some(value) <==> Holds(world, variable, value)
  {
  }

  lemma SpelledExactly(raw: string, variable: string)
    ensures ParseExplicit(raw) == Some(variable) <==> Spelled(raw, variable)
    ensures ParseExplicit(raw).None? <==> forall v :: !Spelled(raw, v)
  {
    hide ParseExplicit;
    hide Spelled;
    ExplicitExactly(raw, variable);
    forall v ensures ParseExplicit(raw) == Some(v) <==> Spelled(raw, v) {
      ExplicitExactly(raw, v);
    }
    if ParseExplicit(raw).Some? {
      assert Spelled(raw, ParseExplicit(raw).value);
    }
  }

  /** In every world a value is resolved exactly when the deciding variable holds it,
      or it is the literal, or it is what the file or the command yields. */
  lemma ResolvedExactly(world: World, r: Option<SecretRef>, name: Option<string>, value: string)
    ensures ResolveWithLegacyEnv(world, r, name) == Some(value) <==>
      || (exists variable :: Decides(r, name, variable) && Holds(world, variable, value))
      || Literal(r, value)
      || (r.Some? && (r.value.File? || r.value.Exec?) && world.external(r.value) == Ok(Some(value)))
  {
    hide Holds;
    hide ParseExplicit;
    hide Spelled;
    hide Blank;
    hide Trim;
    if r.Some? && r.value.Inline? {
      BlankTrim(r.value.value);
      SpelledExactly(r.value.value, "");
    }
    var deciding := if Unset(r) then name else RefEnvName(r);
    if deciding.Some? {
      HoldsExactly(world, deciding.value, value);
      DecidingIsUnique(r, name, deciding.value);
      if !Unset(r) {
        NamedRefResolvesLikeVariable(world, r.value, name);
      }
    } else {
      NothingDecides(r, name);
    }
  }

  lemma DecidingIsUnique(r: Option<SecretRef>, name: Option<string>, variable: string)
    requires (if Unset(r) then name else RefEnvName(r)) == Some(variable)
    ensures forall v :: Decides(r, name, v) <==> v == variable
  {
    hide ParseExplicit;
    hide Spelled;
    hide Blank;
    if r.Some? && r.value.Inline? {
      BlankTrim(r.value.value);
      if Unset(r) {
        BlankNamesNothing(r.value.value);
      }
      forall v ensures ParseExplicit(r.value.value) == Some(v) <==> Spelled(r.value.value, v) {
        SpelledExactly(r.value.value, v);
      }
    }
  }

  lemma NothingDecides(r: Option<SecretRef>, name: Option<string>)
    requires (if Unset(r) then name else RefEnvName(r)) == None
    ensures forall v :: !Decides(r, name, v)
  {
    hide ParseExplicit;
    hide Spelled;
    hide Blank;
    if r.Some? && r.value.Inline? {
      if Unset(r) {
        BlankNamesNothing(r.value.value);
      }
      SpelledExactly(r.value.value, "");
    }
  }

  lemma BlankNamesNothing(raw: string)
    requires Blank(raw)
    ensures ParseExplicit(raw).None?
  {
    BlankTrim(raw);
  }

  /** A pair of settings as the configuration holds it. */
  class Setting {
    var secretRef: Option<SecretRef>
    var envName: Option<string>

    constructor (secretRef: Option<SecretRef>, envName: Option<string>)
      ensures this.secretRef == secretRef && this.envName == envName
    {
      this.secretRef := secretRef;
      this.envName := envName;
    }

    /** Folds a reference that names a variable into the variable setting, unless
        another variable is configured. The resolved value is the same in every world. */
    method CanonicalizeEnvSecretReference()
      modifies this
      ensures forall world :: ResolveWithLegacyEnv(world, secretRef, envName)
                              == old(ResolveWithLegacyEnv(world, secretRef, envName))
      ensures Settled(secretRef, envName)
      ensures old(Settled(secretRef, envName)) ==> secretRef == old(secretRef) && envName == old(envName)
      ensures !old(Settled(secretRef, envName)) ==> secretRef == None && envName == old(RefEnvName(secretRef))
    {
      hide ExplicitEnvName;
      hide ResolveWithLegacyEnv;
      hide Trim;
      var explicit := RefEnvName(secretRef);
      if explicit.None? {
        return;
      }
      var configured := Configured(envName);
      if configured.None? || configured.value == explicit.value {
        forall world
          ensures ResolveWithLegacyEnv(world, secretRef, envName) == ResolveWithLegacyEnv(world, None, explicit)
        {
          NamedRefResolvesLikeVariable(world, secretRef.value, envName);
          NoRefReadsVariable(world, explicit);
        }
        envName := explicit;
        secretRef := None;
      }
    }
  }

  lemma NoRefReadsVariable(world: World, name: Option<string>)
    ensures ResolveWithLegacyEnv(world, None, name) == ReadNonEmptyEnv(world, name)
  {
  }

  /** Nothing left to fold: no variable is named, or another one is configured. */
  predicate Settled(r: Option<SecretRef>, name: Option<string>)
  {
    RefEnvName(r).None? || (Configured(name).Some? && Configured(name) != RefEnvName(r))
  }
}
