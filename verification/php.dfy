/**
 * The few PHP string primitives the two commands rely on: truthiness of a
 * nullable string, `ucfirst`/`lcfirst`, single-character `str_replace`,
 * `PHP_EOL`, and substring containment (used to state what a rendered
 * template holds).
 */
module Php {
  import opened Wrappers

  /** The line terminator `PHP_EOL`, taken as the Unix one. */
  const Eol: string := "\n"

  /**
   * PHP's `(bool)$v` for a `?string`: null, "" and "0" are falsy. Every
   * other string is truthy, in particular every one of two or more
   * characters and every one-character string other than "0".
   */
  predicate Truthy(v: Option<string>)
    ensures Truthy(v) ==> v.Some? && |v.value| >= 1
    ensures v.Some? && |v.value| >= 2 ==> Truthy(v)
    ensures v.Some? && |v.value| == 1 ==> (Truthy(v) <==> v.value[0] != '0')
  {
    v.Some? && v.value != "" && v.value != "0"
  }

  /** The commands' `hasOptionWithEmptyValue`: passed, and passed as "", hence falsy. */
  predicate IsEmptyValue(v: Option<string>)
    ensures IsEmptyValue(v) <==> v.Some? && |v.value| == 0
    ensures IsEmptyValue(v) ==> !Truthy(v)
  {
    v.Some? && v.value == ""
  }

  lemma EmptyValueIsFalsy(v: Option<string>)
    ensures IsEmptyValue(v) ==> !Truthy(v)
    ensures v.None? ==> !Truthy(v) && !IsEmptyValue(v)
  {
  }

  predicate IsLower(c: char) { 'a' <= c <= 'z' }
  predicate IsUpper(c: char) { 'A' <= c <= 'Z' }

  /** ASCII upper-casing of one character, as `ucfirst` does it (PHP 8.2+ ignores the locale). */
  function ToUpper(c: char): (u: char)
    ensures IsLower(c) ==> IsUpper(u) && u as int == c as int - 32
    ensures !IsLower(c) ==> u == c
  {
    if IsLower(c) then (c as int - 32) as char else c
  }

  /** ASCII lower-casing of one character, as `lcfirst` does it. */
  function ToLower(c: char): (l: char)
    ensures IsUpper(c) ==> IsLower(l) && l as int == c as int + 32
    ensures !IsUpper(c) ==> l == c
  {
    if IsUpper(c) then (c as int + 32) as char else c
  }

  /** PHP `ucfirst`: only the first character changes, and only if it is a lower-case letter. */
  function Ucfirst(s: string): (r: string)
    ensures |r| == |s|
    ensures |s| > 0 ==> r[0] == ToUpper(s[0]) && r[1..] == s[1..]
    ensures |s| > 0 && !IsLower(s[0]) ==> r == s
  {
    if |s| == 0 then s else [ToUpper(s[0])] + s[1..]
  }

  /** PHP `lcfirst`: only the first character changes, and only if it is an upper-case letter. */
  function Lcfirst(s: string): (r: string)
    ensures |r| == |s|
    ensures |s| > 0 ==> r[0] == ToLower(s[0]) && r[1..] == s[1..]
    ensures |s| > 0 && !IsUpper(s[0]) ==> r == s
  {
    if |s| == 0 then s else [ToLower(s[0])] + s[1..]
  }

  /** `ucfirst` is idempotent, and `ucfirst`/`lcfirst` each forget what the other did. */
  lemma CaseFirstPartners(s: string)
    ensures Ucfirst(Ucfirst(s)) == Ucfirst(s)
    ensures Lcfirst(Ucfirst(s)) == Lcfirst(s)
    ensures Ucfirst(Lcfirst(s)) == Ucfirst(s)
  {
  }

  /** `ucfirst` keeps a truthy string truthy: it cannot produce "" or "0". */
  lemma UcfirstKeepsTruthy(s: string)
    ensures Truthy(Some(s)) <==> Truthy(Some(Ucfirst(s)))
  {
  }

  /** `str_replace(from, to, s)` for single-character search and replacement strings. */
  function Replace(s: string, from: char, to: char): (r: string)
    ensures |r| == |s|
    ensures forall i :: 0 <= i < |s| ==> r[i] == if s[i] == from then to else s[i]
  {
    if |s| == 0 then [] else Replace(s[..|s| - 1], from, to) + [if s[|s| - 1] == from then to else s[|s| - 1]]
  }

  /** After the replacement no `from` is left (when it differs from `to`). */
  lemma ReplaceRemoves(s: string, from: char, to: char)
    requires from != to
    ensures from !in Replace(s, from, to)
  {
  }

  /** Replacing back restores the input when `to` did not occur in it. */
  lemma ReplaceRoundTrip(s: string, from: char, to: char)
    requires to !in s
    ensures Replace(Replace(s, from, to), to, from) == s
  {
  }

  /** `t` is a prefix of `s`. */
  predicate StartsWith(s: string, t: string) {
    |t| <= |s| && s[..|t|] == t
  }

  /** `str_contains(s, t)`. */
  predicate Contains(s: string, t: string) {
    exists i :: 0 <= i <= |s| && StartsWith(s[i..], t)
  }

  lemma ContainsPrefixed(a: string, s: string, t: string)
    requires Contains(s, t)
    ensures Contains(a + s, t)
  {
    var i :| 0 <= i <= |s| && StartsWith(s[i..], t);
    assert (a + s)[|a| + i..] == s[i..];
  }

  /** `t` is a suffix of `s`. */
  predicate EndsWith(s: string, t: string) {
    |t| <= |s| && s[|s| - |t|..] == t
  }

  /**
   * A heredoc: the lines joined by newlines. A heredoc whose last line is
   * empty therefore ends in exactly one newline.
   */
  function Join(lines: seq<string>): string {
    if |lines| == 0 then ""
    else if |lines| == 1 then lines[0]
    else lines[0] + "\n" + Join(lines[1..])
  }

  /** Every line of a heredoc occurs, newline included unless it is the last, in the joined text. */
  lemma {:induction false} JoinContainsLine(lines: seq<string>, k: nat)
    requires k < |lines|
    ensures Contains(Join(lines), lines[k])
    ensures k + 1 < |lines| ==> Contains(Join(lines), lines[k] + "\n")
  {
    if |lines| == 1 {
      assert Join(lines)[0..][..|lines[0]|] == lines[0];
    } else {
      var rest := Join(lines[1..]);
      assert Join(lines) == lines[0] + "\n" + rest;
      if k == 0 {
        assert Join(lines)[0..][..|lines[0] + "\n"|] == lines[0] + "\n";
        assert Join(lines)[0..][..|lines[0]|] == lines[0];
      } else {
        JoinContainsLine(lines[1..], k - 1);
        assert lines[1..][k - 1] == lines[k];
        ContainsPrefixed(lines[0] + "\n", rest, lines[k]);
        if k + 1 < |lines| {
          ContainsPrefixed(lines[0] + "\n", rest, lines[k] + "\n");
        }
      }
    }
  }

  /** The joined text ends with the last line, preceded by a newline and the line before it. */
  lemma {:induction false} JoinEndsWithLast(lines: seq<string>)
    requires |lines| > 1
    ensures EndsWith(Join(lines), "\n" + lines[|lines| - 1])
    ensures EndsWith(Join(lines), lines[|lines| - 2] + "\n" + lines[|lines| - 1])
  {
    var last := lines[|lines| - 1];
    if |lines| == 2 {
      assert Join(lines) == lines[0] + "\n" + last;
      assert Join(lines)[|lines[0]|..] == "\n" + last;
    } else {
      var rest := lines[1..];
      JoinEndsWithLast(rest);
      assert rest[|rest| - 1] == last && rest[|rest| - 2] == lines[|lines| - 2];
      var j := Join(rest);
      var t := lines[|lines| - 2] + "\n" + last;
      assert Join(lines) == lines[0] + "\n" + j;
      assert Join(lines)[|Join(lines)| - |t|..] == j[|j| - |t|..];
      assert Join(lines)[|Join(lines)| - |"\n" + last|..] == j[|j| - |"\n" + last|..];
    }
  }

  /** The joined text begins with the first line. */
  lemma JoinStartsWithFirst(lines: seq<string>)
    requires |lines| > 1
    ensures StartsWith(Join(lines), lines[0] + "\n")
  {
  }
}
