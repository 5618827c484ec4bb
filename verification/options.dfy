/**
 * The options both commands take and the two checks both run before doing
 * anything: `--model`/`--controller` (the primary identifier), `--subdir`
 * and `--name`.
 */
module CommandOptions {
  import opened Wrappers
  import opened Php

  /** `primary` is `--model` for make:repository and `--controller` for make:service. */
  datatype Options = Options(primary: Option<string>, subdir: Option<string>, name: Option<string>)

  datatype Verdict = MissingPrimaryOrName | EmptyOptionValue | Accepted

  /** At least one of the primary identifier and the name is truthy. */
  predicate HasIdentifier(o: Options) {
    Truthy(o.primary) || Truthy(o.name)
  }

  /** Some option was passed with the value "". */
  predicate HasEmptyOption(o: Options) {
    IsEmptyValue(o.subdir) || IsEmptyValue(o.primary) || IsEmptyValue(o.name)
  }

  /** The two checks, in the order the commands run them. */
  function Validate(o: Options): (v: Verdict)
    ensures v == MissingPrimaryOrName <==> !Truthy(o.primary) && !Truthy(o.name)
    ensures v == EmptyOptionValue <==>
              (Truthy(o.primary) || Truthy(o.name)) && Some("") in {o.primary, o.subdir, o.name}
    ensures v == Accepted <==>
              (Truthy(o.primary) || Truthy(o.name)) && Some("") !in {o.primary, o.subdir, o.name}
  {
    if !HasIdentifier(o) then MissingPrimaryOrName
    else if HasEmptyOption(o) then EmptyOptionValue
    else Accepted
  }

  /** An option passed as "" is always rejected; leaving the same option out is not held against the run. */
  lemma EmptyRejectedOmittedAccepted(o: Options)
    requires HasIdentifier(o)
    ensures Validate(o.(subdir := Some(""))) == EmptyOptionValue
    ensures Validate(o.(subdir := None)) == Accepted <==> !IsEmptyValue(o.primary) && !IsEmptyValue(o.name)
  {
  }

  /** The name (or, failing it, the primary identifier) that an accepted run builds its class name from. */
  function ChosenName(o: Options): (s: string)
    requires HasIdentifier(o)
    ensures Truthy(Some(s))
    ensures Truthy(o.name) ==> Some(s) == o.name
    ensures !Truthy(o.name) ==> Some(s) == o.primary
  {
    if Truthy(o.name) then o.name.value else o.primary.value
  }

  /** `$subdir ? $subdir . '/' : ''`: the sub-directory with one trailing slash, or nothing. */
  function Directory(subdir: Option<string>): (d: string)
    ensures d == "" <==> !Truthy(subdir)
    ensures d != "" ==> d[|d| - 1] == '/' && Some(d[..|d| - 1]) == subdir
  {
    if Truthy(subdir) then subdir.value + "/" else ""
  }
}
