/**
 * The prompt layer of src/prompts/prompt-handler.ts: the name-keyed registry of prompt
 * definitions, the `{name}` template engine and the keyword rules that pick
 * completion suggestions for a parameter.
 *
 * Template variables are a map from names to JSON values; a name absent from the map
 * is undefined and JNull is null.
 */
module PromptHandler {
  import opened JsValues

  datatype PromptParameter = PromptParameter(name: string, description: Option<string>, required: bool, paramType: string)

  datatype PromptDefinition = PromptDefinition(
    name: string,
    description: string,
    arguments: Option<seq<PromptParameter>>,
    template: string,
    category: string,
    version: string)

  // ---------------------------------------------------------------------------
  // Registry

  /** The first prompt with this name, as `Map.get` finds it when names are distinct. */
  function FindPrompt(prompts: seq<PromptDefinition>, name: string): (r: Option<PromptDefinition>)
    ensures r.Some? ==> r.value in prompts && r.value.name == name
    ensures r.None? <==> forall i :: 0 <= i < |prompts| ==> prompts[i].name != name
  {
    if prompts == [] then None
    else if prompts[0].name == name then Some(prompts[0])
    else FindPrompt(prompts[1..], name)
  }

  /** Appending a prompt with a new name: it is found under its name and nothing else moves. */
  lemma {:induction false} FindAfterAppend(prompts: seq<PromptDefinition>, p: PromptDefinition, name: string)
    requires FindPrompt(prompts, p.name).None?
    ensures FindPrompt(prompts + [p], name) == if name == p.name then Some(p) else FindPrompt(prompts, name)
  {
    if prompts == [] {
      assert [p][1..] == [];
    } else {
      assert (prompts + [p])[1..] == prompts[1..] + [p];
      FindAfterAppend(prompts[1..], p, name);
    }
  }

  /** The prompts of one category, in registration order. */
  function InCategory(prompts: seq<PromptDefinition>, category: string): (r: seq<PromptDefinition>)
    ensures forall p :: p in r <==> p in prompts && p.category == category
    ensures |r| <= |prompts|
  {
    if prompts == [] then []
    else
      var last := prompts[|prompts| - 1];
      assert forall p :: p in prompts <==> p in prompts[..|prompts| - 1] || p == last by {
        assert prompts == prompts[..|prompts| - 1] + [last];
      }
      InCategory(prompts[..|prompts| - 1], category) + (if last.category == category then [last] else [])
  }

  /** Filtering a concatenation filters each part and keeps their order. */
  lemma {:induction false} InCategoryConcat(a: seq<PromptDefinition>, b: seq<PromptDefinition>, category: string)
    ensures InCategory(a + b, category) == InCategory(a, category) + InCategory(b, category)
  {
    if b == [] {
      assert a + b == a;
    } else {
      var init := b[..|b| - 1];
      assert (a + b)[..|a + b| - 1] == a + init;
      assert (a + b)[|a + b| - 1] == b[|b| - 1];
      InCategoryConcat(a, init, category);
    }
  }

  /** A prompt appended to the registry is listed last in its own category and nowhere else. */
  lemma InCategoryAppend(prompts: seq<PromptDefinition>, p: PromptDefinition, category: string)
    ensures InCategory(prompts + [p], category) ==
              InCategory(prompts, category) + (if p.category == category then [p] else [])
  {
    InCategoryConcat(prompts, [p], category);
    assert InCategory([p], category) == InCategory([], category) + (if p.category == category then [p] else []) by {
      assert [p][..0] == [];
    }
  }

  predicate DistinctNames(prompts: seq<PromptDefinition>)
  {
    forall i, j :: 0 <= i < j < |prompts| ==> prompts[i].name != prompts[j].name
  }

  /** The registry; `prompts` lists the registered definitions in registration order. */
  class PromptRegistry {
    var prompts: seq<PromptDefinition>

    ghost predicate Valid()
      reads this
    {
      DistinctNames(prompts)
    }

    constructor()
      ensures Valid() && prompts == []
    {
      prompts := [];
    }

    function Has(name: string): (b: bool)
      reads this
      ensures b <==> exists i :: 0 <= i < |prompts| && prompts[i].name == name
    {
      FindPrompt(prompts, name).Some?
    }

    function Get(name: string): (r: Option<PromptDefinition>)
      reads this
      ensures r.Some? <==> Has(name)
      ensures r.Some? ==> r.value in prompts && r.value.name == name
    {
      FindPrompt(prompts, name)
    }

    /** Every registered prompt, in registration order. */
    function GetAll(): (r: seq<PromptDefinition>)
      reads this
      ensures r == prompts
      ensures forall name :: Has(name) <==> exists i :: 0 <= i < |r| && r[i].name == name
    {
      prompts
    }

    function GetByCategory(category: string): (r: seq<PromptDefinition>)
      reads this
      ensures forall p :: p in r <==> p in GetAll() && p.category == category
    {
      InCategory(prompts, category)
    }

    /**
     * register: a name already present is refused and the registry is left as it was;
     * otherwise the prompt is appended and can be found under its name.
     */
    method Register(p: PromptDefinition) returns (r: Result<(), string>)
      requires Valid()
      modifies this
      ensures Valid()
      ensures old(Has(p.name)) ==>
                r == Failure("A prompt with the name \"" + p.name + "\" is already registered.")
                && prompts == old(prompts)
      ensures !old(Has(p.name)) ==> r.Success? && prompts == old(prompts) + [p]
      ensures Has(p.name)
      ensures !old(Has(p.name)) ==> Get(p.name) == Some(p)
      ensures forall name :: name != p.name ==> Get(name) == old(Get(name))
      ensures forall c :: GetByCategory(c) == old(GetByCategory(c)) + (if r.Success? && p.category == c then [p] else [])
    {
      if Has(p.name) {
        return Failure("A prompt with the name \"" + p.name + "\" is already registered.");
      }
      forall name {
        FindAfterAppend(prompts, p, name);
      }
      assert (prompts + [p])[..|prompts|] == prompts;
      prompts := prompts + [p];
      r := Success(());
    }
  }

  // ---------------------------------------------------------------------------
  // Template engine: the regular expression /\{([^}]+)\}/g

  /**
   * The placeholder at the front of `t`, if the pattern matches there: a `{`, at least
   * one character that is not `}`, then the first `}`. The result is the name's length.
   */
  function Placeholder(t: string): (k: Option<nat>)
    ensures k.Some? ==> 1 <= k.value && k.value + 1 < |t| && t[0] == '{' && t[k.value + 1] == '}'
  {
    if t == [] || t[0] != '{' then None
    else
      var k := IndexOfChar(t[1..], '}');
      if 0 < k < |t| - 1 then Some(k) else None
  }

  /**
   * The pattern matches at the front exactly when `t` opens with `{`, the next character
   * is not `}`, and a `}` follows somewhere; the name then runs up to the first `}`.
   */
  lemma {:induction false} PlaceholderMatches(t: string)
    ensures Placeholder(t).Some? <==>
              |t| > 1 && t[0] == '{' && t[1] != '}' && exists i :: 1 < i < |t| && t[i] == '}'
    ensures Placeholder(t).Some? ==> forall i :: 1 <= i <= Placeholder(t).value ==> t[i] != '}'
  {
    if |t| > 1 && t[0] == '{' {
      var k := IndexOfChar(t[1..], '}');
      if exists i :: 1 < i < |t| && t[i] == '}' {
        var i :| 1 < i < |t| && t[i] == '}';
        assert t[1..][i - 1] == '}';
      }
      forall i | 1 <= i <= k && i < |t|
        ensures t[i] != '}'
      {
        assert t[1..][i - 1] == t[i];
      }
    }
  }

  /** What a matched placeholder becomes: String(value) for a defined variable, else itself. */
  function Replacement(name: string, variables: map<string, Json>): string
  {
    var key := Trim(name);
    if key in variables && variables[key] != JNull then JsString(variables[key]) else "{" + name + "}"
  }

  /**
   * The scan of `replace(pattern, callback)`: each placeholder, left to right, becomes
   * `replace` of the text between its braces; every other character is copied.
   */
  function SubstituteWith(t: string, replace: string -> string): string
    decreases |t|
  {
    if t == [] then ""
    else match Placeholder(t)
      case Some(k) => replace(t[1..k + 1]) + SubstituteWith(t[k + 2..], replace)
      case None => [t[0]] + SubstituteWith(t[1..], replace)
  }

  /** substitute: each placeholder replaced by its variable's text, the rest copied. */
  function Substitute(t: string, variables: map<string, Json>): string
  {
    SubstituteWith(t, name => Replacement(name, variables))
  }

  /** The text between the braces of each placeholder, in order. */
  function Names(t: string): seq<string>
    decreases |t|
  {
    if t == [] then []
    else match Placeholder(t)
      case Some(k) => [t[1..k + 1]] + Names(t[k + 2..])
      case None => Names(t[1..])
  }

  /** extractVariables: the trimmed names of the placeholders, in order, duplicates kept. */
  function ExtractVariables(t: string): seq<string>
    decreases |t|
  {
    if t == [] then []
    else match Placeholder(t)
      case Some(k) => [Trim(t[1..k + 1])] + ExtractVariables(t[k + 2..])
      case None => ExtractVariables(t[1..])
  }

  /** Each placeholder's trimmed text is one of the extracted variables. */
  lemma {:induction false} NamesTrimmed(t: string, name: string)
    requires name in Names(t)
    ensures Trim(name) in ExtractVariables(t)
    decreases |t|
  {
    if t != [] {
      match Placeholder(t)
      case Some(k) =>
        if name != t[1..k + 1] {
          NamesTrimmed(t[k + 2..], name);
        }
      case None =>
        NamesTrimmed(t[1..], name);
    }
  }

  lemma {:induction false} PlaceholderSplit(t: string, k: nat)
    requires Placeholder(t) == Some(k)
    ensures t == "{" + t[1..k + 1] + "}" + t[k + 2..]
  {
    assert t == t[..1] + t[1..k + 1] + t[k + 1..k + 2] + t[k + 2..];
  }

  /** One step of the scan over a placeholder at the front. */
  lemma ScanPlaceholder(t: string, k: nat, replace: string -> string)
    requires Placeholder(t) == Some(k)
    ensures Names(t) == [t[1..k + 1]] + Names(t[k + 2..])
    ensures SubstituteWith(t, replace) == replace(t[1..k + 1]) + SubstituteWith(t[k + 2..], replace)
  {
  }

  /** One step of the scan over a character that opens no placeholder. */
  lemma ScanCopy(t: string, replace: string -> string)
    requires t != [] && Placeholder(t).None?
    ensures Names(t) == Names(t[1..])
    ensures SubstituteWith(t, replace) == [t[0]] + SubstituteWith(t[1..], replace)
  {
  }

  /** A placeholder given back unchanged, followed by a rest that is left as it is. */
  lemma PlaceholderKept(t: string, k: nat, replace: string -> string)
    requires Placeholder(t) == Some(k)
    requires replace(t[1..k + 1]) == "{" + t[1..k + 1] + "}"
    requires SubstituteWith(t[k + 2..], replace) == t[k + 2..]
    ensures SubstituteWith(t, replace) == t
  {
    ScanPlaceholder(t, k, replace);
    PlaceholderSplit(t, k);
  }

  /** A copied character followed by a rest that is left as it is. */
  lemma CharKept(t: string, replace: string -> string)
    requires t != [] && Placeholder(t).None?
    requires SubstituteWith(t[1..], replace) == t[1..]
    ensures SubstituteWith(t, replace) == t
  {
    ScanCopy(t, replace);
    assert t == [t[0]] + t[1..];
  }

  /** `replace` gives each of the names back as the placeholder it came from. */
  ghost predicate GivesBack(replace: string -> string, names: seq<string>)
  {
    forall n :: n in names ==> replace(n) == "{" + n + "}"
  }

  lemma GivesBackFront(replace: string -> string, name: string, names: seq<string>)
    requires GivesBack(replace, [name] + names)
    ensures replace(name) == "{" + name + "}" && GivesBack(replace, names)
  {
    assert name in [name] + names;
    forall n | n in names
      ensures replace(n) == "{" + n + "}"
    {
      assert n in [name] + names;
    }
  }

  /** A replacement that gives every placeholder back unchanged leaves the template as it is. */
  lemma {:induction false} SubstituteWithIdentity(t: string, replace: string -> string)
    requires GivesBack(replace, Names(t))
    ensures SubstituteWith(t, replace) == t
    decreases |t|
  {
    if t != [] {
      match Placeholder(t)
      case Some(k) =>
        ScanPlaceholder(t, k, replace);
        GivesBackFront(replace, t[1..k + 1], Names(t[k + 2..]));
        SubstituteWithIdentity(t[k + 2..], replace);
        PlaceholderKept(t, k, replace);
      case None =>
        ScanCopy(t, replace);
        SubstituteWithIdentity(t[1..], replace);
        CharKept(t, replace);
    }
  }

  /** When none of the template's variables is defined, substitution changes nothing. */
  lemma SubstituteIdentity(t: string, variables: map<string, Json>)
    requires forall v :: v in ExtractVariables(t) ==> Absent(variables, v)
    ensures Substitute(t, variables) == t
  {
    var replace := name => Replacement(name, variables);
    forall name | name in Names(t)
      ensures replace(name) == "{" + name + "}"
    {
      NamesTrimmed(t, name);
    }
    assert GivesBack(replace, Names(t));
    SubstituteWithIdentity(t, replace);
  }

  /** With no variables at all, every template is returned as it is. */
  lemma SubstituteNoVariables(t: string)
    ensures Substitute(t, map[]) == t
  {
    SubstituteIdentity(t, map[]);
  }

  /** A defined variable's placeholder at the front is replaced by the value's text. */
  lemma {:induction false} SubstituteDefined(t: string, k: nat, variables: map<string, Json>)
    requires Placeholder(t) == Some(k)
    requires Trim(t[1..k + 1]) in variables && variables[Trim(t[1..k + 1])] != JNull
    ensures Substitute(t, variables) == JsString(variables[Trim(t[1..k + 1])]) + Substitute(t[k + 2..], variables)
  {
  }

  /** A template without an opening brace has no variables. */
  lemma {:induction false} ExtractWithoutBraces(t: string)
    requires '{' !in t
    ensures ExtractVariables(t) == []
    decreases |t|
  {
    if t != [] {
      assert t[0] != '{';
      ExtractWithoutBraces(t[1..]);
    }
  }

  datatype Validation = Validation(isValid: bool, missingVariables: seq<string>)

  /** A variable counts as missing when it is undefined or null. */
  predicate Absent(variables: map<string, Json>, name: string)
  {
    name !in variables || variables[name] == JNull
  }

  /** The names of the required parameters whose variable is missing, in parameter order. */
  function MissingRequired(params: seq<PromptParameter>, variables: map<string, Json>): (r: seq<string>)
    ensures |r| <= |params|
  {
    if params == [] then []
    else
      (if params[0].required && Absent(variables, params[0].name) then [params[0].name] else [])
      + MissingRequired(params[1..], variables)
  }

  /** A name is reported missing exactly when some required parameter with that name has no value. */
  lemma {:induction false} MissingRequiredMember(params: seq<PromptParameter>, variables: map<string, Json>, name: string)
    ensures name in MissingRequired(params, variables) <==>
      exists i :: 0 <= i < |params| && params[i].required && params[i].name == name && Absent(variables, name)
  {
    if params != [] {
      MissingRequiredMember(params[1..], variables, name);
      if exists i :: (0 <= i < |params| && params[i].required && params[i].name == name && Absent(variables, name)) {
        var i :| 0 <= i < |params| && params[i].required && params[i].name == name && Absent(variables, name);
        if i > 0 {
          assert params[1..][i - 1] == params[i];
        }
      }
    }
  }

  /**
   * validateVariables: lists the missing required variables; valid exactly when there
   * are none. The template is not consulted.
   */
  function ValidateVariables(template: string, variables: map<string, Json>, requiredParams: seq<PromptParameter>)
    : (v: Validation)
    ensures v.isValid <==> v.missingVariables == []
    ensures v.missingVariables == MissingRequired(requiredParams, variables)
  {
    var missing := MissingRequired(requiredParams, variables);
    Validation(|missing| == 0, missing)
  }

  /** Optional parameters are never reported, whatever the variables. */
  lemma {:induction false} OptionalNeverMissing(params: seq<PromptParameter>, variables: map<string, Json>)
    requires forall i :: 0 <= i < |params| ==> !params[i].required
    ensures MissingRequired(params, variables) == []
  {
    if params != [] {
      OptionalNeverMissing(params[1..], variables);
    }
  }

  // ---------------------------------------------------------------------------
  // Completion suggestions

  const SheetNameSuggestions: seq<string> := ["Project Dashboard", "Sprint Backlog", "Team Resources", "Bug Tracker"]
  const ColumnNameSuggestions: seq<string> := ["Task Name", "Assigned To", "Status", "Due Date", "Priority", "Story Points"]
  const UserNameSuggestions: seq<string> := ["John Doe", "Jane Smith", "Mike Johnson", "Sarah Wilson"]
  const StatusSuggestions: seq<string> := ["Not Started", "In Progress", "Complete", "On Hold", "Blocked"]
  const PrioritySuggestions: seq<string> := ["High", "Medium", "Low", "Critical"]

  predicate MentionsUser(n: string)
  {
    Contains(n, "user") || Contains(n, "assignee") || Contains(n, "owner")
  }

  /** getSuggestions: the first keyword rule the lower-cased name satisfies decides. */
  function Suggestions(parameterName: string): (r: seq<string>)
    ensures var n := ToLower(parameterName);
      r == [] <==> !Contains(n, "sheet") && !Contains(n, "column") && !MentionsUser(n)
                   && !Contains(n, "status") && !Contains(n, "priority")
    ensures Contains(ToLower(parameterName), "sheet") ==> r == SheetNameSuggestions
    ensures !Contains(ToLower(parameterName), "sheet") && Contains(ToLower(parameterName), "column") ==>
              r == ColumnNameSuggestions
    ensures var n := ToLower(parameterName);
      !Contains(n, "sheet") && !Contains(n, "column") && MentionsUser(n) ==> r == UserNameSuggestions
    ensures var n := ToLower(parameterName);
      !Contains(n, "sheet") && !Contains(n, "column") && !MentionsUser(n) && Contains(n, "status") ==>
        r == StatusSuggestions
    ensures var n := ToLower(parameterName);
      (!Contains(n, "sheet") && !Contains(n, "column") && !MentionsUser(n) && !Contains(n, "status")
       && Contains(n, "priority")) ==> r == PrioritySuggestions
  {
    var n := ToLower(parameterName);
    if Contains(n, "sheet") then SheetNameSuggestions
    else if Contains(n, "column") then ColumnNameSuggestions
    else if MentionsUser(n) then UserNameSuggestions
    else if Contains(n, "status") then StatusSuggestions
    else if Contains(n, "priority") then PrioritySuggestions
    else []
  }

  lemma {:induction false} ToLowerIdempotent(s: string)
    ensures ToLower(ToLower(s)) == ToLower(s)
  {
    var once := ToLower(s);
    assert forall i :: 0 <= i < |s| ==> LowerChar(once[i]) == once[i];
  }

  /** Suggestions do not depend on the case of the parameter name. */
  lemma SuggestionsIgnoreCase(parameterName: string)
    ensures Suggestions(parameterName) == Suggestions(ToLower(parameterName))
  {
    ToLowerIdempotent(parameterName);
  }
}
