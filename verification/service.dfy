/**
 * `make:service {--controller=} {--subdir=} {--name=}`: validates its
 * options, resolves a class name, namespace fragment and path, and writes
 * one service class. An existing file is replaced only when the operator
 * confirms; the confirmation is a parameter.
 */
module ServiceCommand {
  import opened Wrappers
  import opened Php
  import opened FileStore
  import opened CommandOptions

  datatype Outcome = Rejected(verdict: Verdict) | Skipped | Created

  /** What a run reports and the files it leaves behind. */
  datatype Run = Run(outcome: Outcome, files: Files)

  const Suffix: string := "Service"

  /** `$name ?: $controller . 'Service'`: no capitalisation is applied. */
  function ClassName(o: Options): (r: string)
    requires HasIdentifier(o)
    ensures Truthy(Some(r))
    ensures Truthy(o.name) ==> Some(r) == o.name
    ensures !Truthy(o.name) ==>
              |r| > |Suffix| && r[|r| - |Suffix|..] == Suffix && Some(r[..|r| - |Suffix|]) == o.primary
  {
    if Truthy(o.name) then o.name.value else o.primary.value + Suffix
  }

  /** `$subdir ? '\\' . str_replace('/', '\\', $subdir) : ''`. */
  function NamespaceFragment(subdir: Option<string>): (ns: string)
    ensures ns == "" <==> !Truthy(subdir)
    ensures ns != "" ==> ns[0] == '\\' && '/' !in ns && |ns| == |subdir.value| + 1
    ensures ns != "" ==>
              forall i :: 0 <= i < |subdir.value| ==> ns[1..][i] == if subdir.value[i] == '/' then '\\' else subdir.value[i]
  {
    if Truthy(subdir) then
      ReplaceRemoves(subdir.value, '/', '\\');
      "\\" + Replace(subdir.value, '/', '\\')
    else ""
  }

  /**
   * The namespace fragment is the directory the file goes to, written with
   * backslashes: the same segments, the trailing separator aside.
   */
  lemma NamespaceFollowsDirectory(subdir: Option<string>)
    ensures Replace(Directory(subdir), '/', '\\') ==
            if Truthy(subdir) then NamespaceFragment(subdir)[1..] + "\\" else ""
  {
  }

  /** A sub-directory without backslashes can be read back from the namespace fragment. */
  lemma NamespaceRoundTrip(subdir: Option<string>)
    requires Truthy(subdir) && '\\' !in subdir.value
    ensures Replace(NamespaceFragment(subdir)[1..], '\\', '/') == subdir.value
  {
  }

  /** `app_path("Services/{$directory}{$className}.php")`, relative to the application directory. */
  function ServicePath(o: Options): (p: string)
    requires HasIdentifier(o)
    ensures StartsWith(p, "Services/" + Directory(o.subdir))
    ensures p[|"Services/" + Directory(o.subdir)|..] == ClassName(o) + ".php"
  {
    "Services/" + Directory(o.subdir) + ClassName(o) + ".php"
  }

  /** The heredoc of `getServiceContent`, line by line; its last line is `}` with no newline after it. */
  function ServiceLines(className: string, namespace: string): seq<string> {
    [ "<?php",
      "",
      "namespace App\\Services" + namespace + ";",
      "",
      "class " + className,
      "{",
      "    // Service implementation",
      "}" ]
  }

  /**
   * The text `getServiceContent` returns: a PHP file ending in the closing
   * brace itself, so the `PHP_EOL` that `createFile` appends is its only
   * trailing newline.
   */
  function ServiceContent(className: string, namespace: string): (c: string)
    ensures StartsWith(c, "<?php\n") && EndsWith(c, "\n}")
  {
    var ls := ServiceLines(className, namespace);
    JoinStartsWithFirst(ls);
    JoinEndsWithLast(ls);
    Join(ls)
  }

  /** The service file declares `App\Services` plus the fragment as its namespace and the class under its name. */
  lemma ServiceContentShape(className: string, namespace: string)
    ensures var c := ServiceContent(className, namespace);
            && StartsWith(c, "<?php\n")
            && Contains(c, "namespace App\\Services" + namespace + ";\n")
            && Contains(c, "class " + className + "\n")
  {
    var ls := ServiceLines(className, namespace);
    JoinStartsWithFirst(ls);
    JoinContainsLine(ls, 2);
    assert ls[2] + "\n" == "namespace App\\Services" + namespace + ";\n";
    JoinContainsLine(ls, 4);
    assert ls[4] + "\n" == "class " + className + "\n";
  }

  /**
   * `createFile`: an existing file is kept unless the operator confirms;
   * otherwise the file holds the content and one `PHP_EOL`.
   */
  function CreateFile(fs: Files, path: string, content: string, confirmOverwrite: bool): (r: Run)
    ensures r.outcome == Skipped <==> path in fs && !confirmOverwrite
    ensures r.outcome != Skipped ==> r.outcome == Created
    ensures r.outcome == Skipped ==> r.files == fs
    ensures r.outcome == Created ==>
              && r.files.Keys == fs.Keys + {path}
              && r.files[path] == content + Eol
              && forall p :: p in fs && p != path ==> r.files[p] == fs[p]
  {
    if path in fs && !confirmOverwrite then Run(Skipped, fs)
    else Run(Created, Put(fs, path, content + Eol))
  }

  /**
   * `handle`: both checks run before any file operation; an accepted run
   * touches the service path and nothing else.
   */
  function Handle(o: Options, fs: Files, confirmOverwrite: bool): (r: Run)
    ensures r.outcome.Rejected? <==> Validate(o) != Accepted
    ensures r.outcome.Rejected? ==> r.outcome.verdict == Validate(o) && r.files == fs
    ensures Validate(o) == Accepted ==>
              var path := ServicePath(o);
              && (r.outcome == Skipped <==> path in fs && !confirmOverwrite)
              && (r.outcome == Skipped ==> r.files == fs)
              && (r.outcome == Created ==>
                    r.files == fs[path := ServiceContent(ClassName(o), NamespaceFragment(o.subdir)) + Eol])
    ensures Validate(o) == Accepted ==> r.files.Keys <= fs.Keys + {ServicePath(o)}
  {
    var v := Validate(o);
    if v != Accepted then Run(Rejected(v), fs)
    else
      var content := ServiceContent(ClassName(o), NamespaceFragment(o.subdir));
      CreateFile(fs, ServicePath(o), content, confirmOverwrite)
  }

  /** Re-running with the overwrite confirmed reports the same and leaves byte-identical files. */
  lemma ConfirmedRerunIsStable(o: Options, fs: Files)
    ensures Handle(o, Handle(o, fs, true).files, true) == Handle(o, fs, true)
  {
  }

  /** After any run, a run that declines the overwrite is skipped and changes nothing. */
  lemma DeclinedRerunSkips(o: Options, fs: Files, confirmOverwrite: bool)
    requires Validate(o) == Accepted
    ensures var files := Handle(o, fs, confirmOverwrite).files;
            Handle(o, files, false) == Run(Skipped, files)
  {
  }

  /** The operator is only asked when the file exists: otherwise the answer makes no difference. */
  lemma ConfirmationOnlyMattersIfPresent(o: Options, fs: Files)
    requires Validate(o) == Accepted && ServicePath(o) !in fs
    ensures Handle(o, fs, true) == Handle(o, fs, false)
  {
  }
}
