/**
 * `make:repository {--model=} {--subdir=} {--name=}`: validates its options,
 * resolves a class name, namespaces and a directory, makes sure the shared
 * base interface and base repository exist, then creates
 * `{Class}Interface.php` and `{Class}Repository.php`. Every file is written
 * only when absent: the command never overwrites anything.
 */
module RepositoryCommand {
  import opened Wrappers
  import opened Php
  import opened FileStore
  import opened CommandOptions

  /** What a run reports and the files it leaves behind. */
  datatype Run = Run(verdict: Verdict, files: Files)

  /** Everything a run derives from its options before touching a file. */
  datatype Target = Target(className: string, directory: string, namespace: string, interfaceNamespace: string)

  const RepositoriesNamespace: string := "App\\Repositories"
  const InterfacesNamespace: string := "App\\Interfaces"
  const BaseInterfacePath: string := "Interfaces/BaseInterface.php"
  const BaseRepositoryPath: string := "Repositories/BaseRepository.php"

  /** `ucfirst($name ?: $model)`. */
  function ClassName(o: Options): (r: string)
    requires HasIdentifier(o)
    ensures Truthy(Some(r))
    ensures |r| == |ChosenName(o)|
    ensures r[0] == ToUpper(ChosenName(o)[0]) && r[1..] == ChosenName(o)[1..]
  {
    UcfirstKeepsTruthy(ChosenName(o));
    Ucfirst(ChosenName(o))
  }

  /** `$subdir ? "{root}\\$subdir" : root`: the sub-directory is appended verbatim, slashes included. */
  function SubNamespace(root: string, subdir: Option<string>): (ns: string)
    ensures !Truthy(subdir) ==> ns == root
    ensures Truthy(subdir) ==> StartsWith(ns, root + "\\") && Some(ns[|root| + 1..]) == subdir
  {
    if Truthy(subdir) then root + "\\" + subdir.value else root
  }

  /**
   * Lines 36-39 of `handle`: the class name, the directory the files go to
   * and the two namespaces, all derived from the options alone.
   */
  function Resolve(o: Options): (t: Target)
    requires HasIdentifier(o)
    ensures Truthy(Some(t.className)) && t.className[1..] == ChosenName(o)[1..]
    ensures t.directory == "" <==> !Truthy(o.subdir)
    ensures StartsWith(t.namespace, RepositoriesNamespace) && StartsWith(t.interfaceNamespace, InterfacesNamespace)
  {
    Target(ClassName(o), Directory(o.subdir),
           SubNamespace(RepositoriesNamespace, o.subdir), SubNamespace(InterfacesNamespace, o.subdir))
  }

  /**
   * Both namespaces follow the directory the files go to: the bare roots
   * when there is none, otherwise the root, a backslash and the directory
   * without its trailing slash (any slash inside it is kept).
   */
  lemma NamespacesFollowDirectory(o: Options)
    requires HasIdentifier(o)
    ensures var t := Resolve(o);
            && Truthy(Some(t.className))
            && (t.directory == "" <==> t.namespace == RepositoriesNamespace)
            && (t.directory == "" <==> t.interfaceNamespace == InterfacesNamespace)
            && (t.directory != "" ==>
                  && t.namespace == RepositoriesNamespace + "\\" + t.directory[..|t.directory| - 1]
                  && t.interfaceNamespace == InterfacesNamespace + "\\" + t.directory[..|t.directory| - 1])
  {
  }

  /** Line 73: the interface file lies in the target directory under `Interfaces/` and is named after the class. */
  function InterfacePath(t: Target): (p: string)
    ensures StartsWith(p, "Interfaces/" + t.directory)
    ensures p[|"Interfaces/" + t.directory|..] == t.className + "Interface.php"
  {
    "Interfaces/" + t.directory + t.className + "Interface.php"
  }

  /** Line 112: the repository file lies in the target directory under `Repositories/` and is named after the class. */
  function RepositoryPath(t: Target): (p: string)
    ensures StartsWith(p, "Repositories/" + t.directory)
    ensures p[|"Repositories/" + t.directory|..] == t.className + "Repository.php"
  {
    "Repositories/" + t.directory + t.className + "Repository.php"
  }

  /** Within one directory, two classes share an interface file, or a repository file, exactly when they are the same class. */
  lemma {:induction false} ClassFilesAreDistinct(t: Target, u: Target)
    requires t.directory == u.directory
    ensures InterfacePath(t) == InterfacePath(u) <==> t.className == u.className
    ensures RepositoryPath(t) == RepositoryPath(u) <==> t.className == u.className
  {
    var ip := "Interfaces/" + t.directory;
    if InterfacePath(t) == InterfacePath(u) {
      var a, b := t.className + "Interface.php", u.className + "Interface.php";
      assert a == b;
      assert a[..|a| - 13] == t.className && b[..|b| - 13] == u.className;
    }
    var rp := "Repositories/" + t.directory;
    if RepositoryPath(t) == RepositoryPath(u) {
      var a, b := t.className + "Repository.php", u.className + "Repository.php";
      assert a == b;
      assert a[..|a| - 14] == t.className && b[..|b| - 14] == u.className;
    }
  }

  /** The four paths an accepted run makes sure exist. */
  function Artifacts(t: Target): set<string> {
    {BaseInterfacePath, BaseRepositoryPath, InterfacePath(t), RepositoryPath(t)}
  }

  /**
   * A path built as `root + directory + className + suffix` names the base
   * file `root + "Base" + suffix` exactly when there is no sub-directory and
   * the class is called `Base`.
   */
  lemma {:induction false} CollidesWithBaseIff(root: string, dir: string, cn: string, suffix: string)
    requires dir == "" || dir[|dir| - 1] == '/'
    requires '/' !in suffix
    ensures root + dir + cn + suffix == root + "Base" + suffix <==> dir == "" && cn == "Base"
  {
    var l, b := root + dir + cn + suffix, root + "Base" + suffix;
    if l == b {
      var lt, bt := dir + cn + suffix, "Base" + suffix;
      assert lt == l[|root|..] == b[|root|..] == bt;
      assert '/' !in bt;
      assert dir != "" ==> '/' in dir && '/' in lt;
      assert dir == "";
      assert cn + suffix == "Base" + suffix;
      assert |cn| == 4;
      assert cn == (cn + suffix)[..4] == ("Base" + suffix)[..4] == "Base";
    }
  }

  /** `--name=Base` without a sub-directory aims its interface at the base interface's path. */
  lemma InterfaceCollidesWithBase(t: Target)
    requires t.directory == "" || t.directory[|t.directory| - 1] == '/'
    ensures InterfacePath(t) == BaseInterfacePath <==> t.directory == "" && t.className == "Base"
  {
    assert BaseInterfacePath == "Interfaces/" + "Base" + "Interface.php";
    assert '/' !in "Interface.php";
    CollidesWithBaseIff("Interfaces/", t.directory, t.className, "Interface.php");
  }

  /** Likewise for the repository and the base repository. */
  lemma RepositoryCollidesWithBase(t: Target)
    requires t.directory == "" || t.directory[|t.directory| - 1] == '/'
    ensures RepositoryPath(t) == BaseRepositoryPath <==> t.directory == "" && t.className == "Base"
  {
    assert BaseRepositoryPath == "Repositories/" + "Base" + "Repository.php";
    assert '/' !in "Repository.php";
    CollidesWithBaseIff("Repositories/", t.directory, t.className, "Repository.php");
  }

  /** Interface files and repository files live under different roots and never share a path. */
  lemma RootsAreDisjoint(t: Target)
    ensures InterfacePath(t) != RepositoryPath(t)
    ensures InterfacePath(t) != BaseRepositoryPath
    ensures RepositoryPath(t) != BaseInterfacePath
  {
    assert InterfacePath(t)[0] == 'I';
    assert RepositoryPath(t)[0] == 'R';
    assert BaseRepositoryPath[0] == 'R';
    assert BaseInterfacePath[0] == 'I';
  }

  /** The opening of `getBaseInterfaceContent`'s heredoc, up to the interface declaration. */
  const BaseInterfaceHeader: seq<string> :=
    [
      "<?php",
      "",
      "namespace App\\Interfaces;",
      "",
      "/**",
      " * Interface BaseInterface",
      " *",
      " * Defines the contract for basic CRUD operations.",
      " */",
      "interface BaseInterface"
    ]

  /** The heredoc of `getBaseInterfaceContent`, line by line; only its header is reasoned about. */
  const BaseInterfaceLines: seq<string> :=
    BaseInterfaceHeader +
    [
      "{",
      "    /**",
      "     * Retrieve all records.",
      "     *",
      "     * @return \\Illuminate\\Database\\Eloquent\\Collection A collection of model instances.",
      "     */",
      "    public function all(): \\Illuminate\\Database\\Eloquent\\Collection;",
      "",
      "    /**",
      "     * Find a record by ID.",
      "     *",
      "     * @param int $id The ID of the record.",
      "     * @return mixed",
      "     */",
      "    public function find(int $id): mixed;",
      "",
      "    /**",
      "     * Create a new record.",
      "     *",
      "     * @param array<mixed> $data The data for the new record.",
      "     * @return \\Illuminate\\Database\\Eloquent\\Model The created model instance.",
      "     */",
      "    public function create(array $data): \\Illuminate\\Database\\Eloquent\\Model;",
      "",
      "    /**",
      "     * Update an existing record.",
      "     *",
      "     * @param int $id The ID of the record to update.",
      "     * @param array<mixed> $data The updated data.",
      "     * @return \\Illuminate\\Database\\Eloquent\\Model The updated model instance.",
      "     */",
      "    public function update(int $id, array $data): \\Illuminate\\Database\\Eloquent\\Model;",
      "",
      "    /**",
      "     * Delete a record by ID.",
      "     *",
      "     * @param int|array<mixed> $ids The ID or an array of IDs to delete.",
      "     * @return bool|null True if at least one record was deleted, false otherwise.",
      "     */",
      "    public function delete(int|array $ids): ?bool;",
      "}",
      ""
    ]

  /** The opening of `getBaseRepositoryContent`'s heredoc, up to the class declaration. */
  const BaseRepositoryHeader: seq<string> :=
    [
      "<?php",
      "",
      "namespace App\\Repositories;",
      "",
      "use App\\Interfaces\\BaseInterface;",
      "use Illuminate\\Database\\Eloquent\\Collection;",
      "use Illuminate\\Database\\Eloquent\\Model;",
      "",
      "/**",
      " * Class BaseRepository",
      " *",
      " * This class provides a base implementation of common database operations",
      " * for Eloquent models, following the repository pattern.",
      " */",
      "class BaseRepository implements BaseInterface"
    ]

  /** The heredoc of `getBaseRepositoryContent`, line by line; only its header is reasoned about. */
  const BaseRepositoryLines: seq<string> :=
    BaseRepositoryHeader +
    [
      "{",
      "    /**",
      "     * @var Model The Eloquent model instance.",
      "     */",
      "    protected Model $model;",
      "",
      "    /**",
      "     * BaseRepository constructor.",
      "     *",
      "     * @param Model $model The model instance to be used.",
      "     */",
      "    public function __construct(Model $model)",
      "    {",
      "        $this->model = $model;",
      "    }",
      "",
      "    /**",
      "     * Retrieve all records.",
      "     *",
      "     * @return Collection A collection of model instances.",
      "     */",
      "    public function all(): Collection",
      "    {",
      "        return $this->model->all();",
      "    }",
      "",
      "    /**",
      "     * Find a record by ID.",
      "     *",
      "     * @param int $id The ID of the record.",
      "     * @return mixed",
      "     */",
      "    public function find(int $id): mixed",
      "    {",
      "        return $this->model->findOrFail($id);",
      "    }",
      "",
      "    /**",
      "     * Create a new record.",
      "     *",
      "     * @param array<mixed> $data The data for the new record.",
      "     * @return Model The created model instance.",
      "     */",
      "    public function create(array $data): Model",
      "    {",
      "        return $this->model->create($data);",
      "    }",
      "",
      "    /**",
      "     * Update an existing record.",
      "     *",
      "     * @param int $id The ID of the record to update.",
      "     * @param array<mixed> $data The updated data.",
      "     * @return Model The updated model instance.",
      "     */",
      "    public function update(int $id, array $data): Model",
      "    {",
      "        $record = $this->model->findOrFail($id);",
      "        $record->update($data);",
      "",
      "        return $record;",
      "    }",
      "",
      "    /**",
      "     * Delete one or multiple records by ID.",
      "     *",
      "     * @param int|array<mixed> $ids The ID or an array of IDs to delete.",
      "     * @return bool True if at least one record was deleted, false otherwise.",
      "     */",
      "    public function delete(int|array $ids): bool",
      "    {",
      "        return $this->model->destroy($ids) > 0;",
      "    }",
      "}",
      ""
    ]

  /**
   * The texts of `BaseInterface.php` and `BaseRepository.php`. The command
   * only ever writes them verbatim, so its operations take them as a
   * parameter; `SourceBaseBodies` holds the ones the command ships.
   */
  datatype BaseBodies = BaseBodies(interfaceText: string, repositoryText: string)

  /**
   * The shipped bodies declare exactly what every generated file imports:
   * `App\Interfaces\BaseInterface` and `App\Repositories\BaseRepository`,
   * the latter implementing the former.
   */
  function SourceBaseBodies(): (b: BaseBodies)
    ensures StartsWith(b.interfaceText, "<?php" + "\n") && StartsWith(b.repositoryText, "<?php" + "\n")
    ensures Contains(b.interfaceText, "namespace App\\Interfaces;" + "\n")
    ensures Contains(b.interfaceText, "interface BaseInterface" + "\n")
    ensures Contains(b.repositoryText, "namespace App\\Repositories;" + "\n")
    ensures Contains(b.repositoryText, "class BaseRepository implements BaseInterface" + "\n")
  {
    BaseInterfaceDeclares();
    BaseRepositoryDeclares();
    BaseBodies(Join(BaseInterfaceLines), Join(BaseRepositoryLines))
  }

  lemma BaseInterfaceDeclares()
    ensures StartsWith(Join(BaseInterfaceLines), "<?php" + "\n")
    ensures Contains(Join(BaseInterfaceLines), "namespace App\\Interfaces;" + "\n")
    ensures Contains(Join(BaseInterfaceLines), "interface BaseInterface" + "\n")
  {
    var ls := BaseInterfaceLines;
    assert ls[0] == "<?php" && ls[2] == "namespace App\\Interfaces;" && ls[9] == "interface BaseInterface";
    JoinStartsWithFirst(ls);
    JoinContainsLine(ls, 2);
    JoinContainsLine(ls, 9);
  }

  lemma BaseRepositoryDeclares()
    ensures StartsWith(Join(BaseRepositoryLines), "<?php" + "\n")
    ensures Contains(Join(BaseRepositoryLines), "namespace App\\Repositories;" + "\n")
    ensures Contains(Join(BaseRepositoryLines), "class BaseRepository implements BaseInterface" + "\n")
  {
    var ls := BaseRepositoryLines;
    assert ls[0] == "<?php" && ls[2] == "namespace App\\Repositories;" && ls[14] == "class BaseRepository implements BaseInterface";
    JoinStartsWithFirst(ls);
    JoinContainsLine(ls, 2);
    JoinContainsLine(ls, 14);
  }

  /** The heredoc of `createInterface`, line by line. */
  function InterfaceLines(className: string, namespace: string): seq<string> {
    [ "<?php",
      "",
      "namespace " + namespace + ";",
      "",
      "use App\\Interfaces\\BaseInterface;",
      "",
      "interface " + className + "Interface extends BaseInterface",
      "{",
      "}",
      "" ]
  }

  /** The heredoc of `createRepository`, line by line; the constructor parameter is `lcfirst` of the class name. */
  function RepositoryLines(className: string, namespace: string, interfaceNamespace: string): seq<string> {
    var param := Lcfirst(className);
    [ "<?php",
      "",
      "namespace " + namespace + ";",
      "",
      "use " + interfaceNamespace + "\\" + className + "Interface;",
      "use App\\Repositories\\BaseRepository;",
      "use App\\Models\\" + className + ";",
      "",
      "class " + className + "Repository extends BaseRepository implements " + className + "Interface",
      "{",
      "    /**",
      "     * Constructor",
      "     *",
      "     * @param \\App\\Models\\" + className + " $" + param + " The model instance.",
      "     */",
      "    public function __construct(" + className + " $" + param + ")",
      "    {",
      "        parent::__construct($" + param + ");",
      "    }",
      "}",
      "" ]
  }

  /** The text `createInterface` writes: a PHP file whose last line, the closing brace, ends in a newline. */
  function InterfaceContent(className: string, namespace: string): (c: string)
    ensures StartsWith(c, "<?php\n") && EndsWith(c, "}\n")
  {
    var ls := InterfaceLines(className, namespace);
    JoinStartsWithFirst(ls);
    JoinEndsWithLast(ls);
    assert ls[|ls| - 2] + "\n" + ls[|ls| - 1] == "}\n";
    Join(ls)
  }

  /** The text `createRepository` writes: a PHP file whose last line, the closing brace, ends in a newline. */
  function RepositoryContent(className: string, namespace: string, interfaceNamespace: string): (c: string)
    ensures StartsWith(c, "<?php\n") && EndsWith(c, "}\n")
  {
    var ls := RepositoryLines(className, namespace, interfaceNamespace);
    JoinStartsWithFirst(ls);
    JoinEndsWithLast(ls);
    assert ls[|ls| - 2] + "\n" + ls[|ls| - 1] == "}\n";
    Join(ls)
  }

  /** The interface file opens by declaring its namespace and extends the base interface under the expected name. */
  lemma InterfaceContentShape(className: string, namespace: string)
    ensures var c := InterfaceContent(className, namespace);
            && StartsWith(c, "<?php\n")
            && Contains(c, "namespace " + namespace + ";\n")
            && Contains(c, "interface " + className + "Interface extends BaseInterface\n")
  {
    var ls := InterfaceLines(className, namespace);
    JoinStartsWithFirst(ls);
    JoinContainsLine(ls, 2);
    assert ls[2] + "\n" == "namespace " + namespace + ";\n";
    JoinContainsLine(ls, 6);
    assert ls[6] + "\n" == "interface " + className + "Interface extends BaseInterface\n";
  }

  /**
   * The repository file declares its namespace, imports `{Class}Interface`
   * from the interface namespace and implements it.
   */
  lemma RepositoryContentShape(className: string, namespace: string, interfaceNamespace: string)
    ensures var c := RepositoryContent(className, namespace, interfaceNamespace);
            && StartsWith(c, "<?php\n")
            && Contains(c, "namespace " + namespace + ";\n")
            && Contains(c, "use " + interfaceNamespace + "\\" + className + "Interface;\n")
            && Contains(c, "class " + className + "Repository extends BaseRepository implements " + className + "Interface\n")
  {
    var ls := RepositoryLines(className, namespace, interfaceNamespace);
    JoinStartsWithFirst(ls);
    JoinContainsLine(ls, 2);
    assert ls[2] + "\n" == "namespace " + namespace + ";\n";
    JoinContainsLine(ls, 4);
    assert ls[4] + "\n" == "use " + interfaceNamespace + "\\" + className + "Interface;\n";
    JoinContainsLine(ls, 8);
    assert ls[8] + "\n" == "class " + className + "Repository extends BaseRepository implements " + className + "Interface\n";
  }

  /** The repository's constructor takes the model under the parameter name `lcfirst` of the class name. */
  lemma RepositoryConstructorParameter(className: string, namespace: string, interfaceNamespace: string)
    ensures Contains(RepositoryContent(className, namespace, interfaceNamespace),
                     "    public function __construct(" + className + " $" + Lcfirst(className) + ")\n")
  {
    var ls := RepositoryLines(className, namespace, interfaceNamespace);
    JoinContainsLine(ls, 15);
    assert ls[15] + "\n" == "    public function __construct(" + className + " $" + Lcfirst(className) + ")\n";
  }

  /** `ensureBaseFilesExist`: writes each base file only where none exists. */
  function EnsureBaseFilesExist(fs: Files, base: BaseBodies): (r: Files)
    ensures r.Keys == fs.Keys + {BaseInterfacePath, BaseRepositoryPath}
    ensures Keeps(fs, r)
    ensures BaseInterfacePath !in fs ==> r[BaseInterfacePath] == base.interfaceText
    ensures BaseRepositoryPath !in fs ==> r[BaseRepositoryPath] == base.repositoryText
  {
    var withInterface := PutIfAbsent(fs, BaseInterfacePath, base.interfaceText);
    PutIfAbsent(withInterface, BaseRepositoryPath, base.repositoryText)
  }

  /** `createInterface`: writes the interface file only where none exists. */
  function CreateInterface(t: Target, fs: Files): (r: Files)
    ensures r.Keys == fs.Keys + {InterfacePath(t)}
    ensures Keeps(fs, r)
    ensures InterfacePath(t) !in fs ==> r[InterfacePath(t)] == InterfaceContent(t.className, t.interfaceNamespace)
  {
    PutIfAbsent(fs, InterfacePath(t), InterfaceContent(t.className, t.interfaceNamespace))
  }

  /** `createRepository`: writes the repository file only where none exists. */
  function CreateRepository(t: Target, fs: Files): (r: Files)
    ensures r.Keys == fs.Keys + {RepositoryPath(t)}
    ensures Keeps(fs, r)
    ensures RepositoryPath(t) !in fs ==>
              r[RepositoryPath(t)] == RepositoryContent(t.className, t.namespace, t.interfaceNamespace)
  {
    PutIfAbsent(fs, RepositoryPath(t), RepositoryContent(t.className, t.namespace, t.interfaceNamespace))
  }

  /** The three file steps of an accepted run, in order. */
  function Generate(t: Target, fs: Files, base: BaseBodies): (r: Files)
    ensures r.Keys == fs.Keys + Artifacts(t)
    ensures Keeps(fs, r)
  {
    var afterBase := EnsureBaseFilesExist(fs, base);
    var afterInterface := CreateInterface(t, afterBase);
    var afterRepository := CreateRepository(t, afterInterface);
    KeepsTransitive(fs, afterBase, afterInterface);
    KeepsTransitive(fs, afterInterface, afterRepository);
    afterRepository
  }

  /**
   * `handle`: both checks run before any file operation; an accepted run
   * adds exactly the four artifact paths and never changes an existing file.
   */
  function Handle(o: Options, fs: Files, base: BaseBodies): (r: Run)
    ensures r.verdict == Validate(o)
    ensures r.verdict != Accepted ==> r.files == fs
    ensures Keeps(fs, r.files)
    ensures r.verdict == Accepted ==> r.files.Keys == fs.Keys + Artifacts(Resolve(o))
  {
    var v := Validate(o);
    if v != Accepted then Run(v, fs) else Run(Accepted, Generate(Resolve(o), fs, base))
  }

  /** On a first run each of the four files gets its template, unless an earlier step of the run already took its path. */
  lemma HandleWritesTemplates(o: Options, fs: Files, base: BaseBodies)
    requires Validate(o) == Accepted
    ensures var t, files := Resolve(o), Handle(o, fs, base).files;
            && (BaseInterfacePath !in fs ==> files[BaseInterfacePath] == base.interfaceText)
            && (BaseRepositoryPath !in fs ==> files[BaseRepositoryPath] == base.repositoryText)
            && (InterfacePath(t) !in fs && InterfacePath(t) != BaseInterfacePath ==>
                  files[InterfacePath(t)] == InterfaceContent(t.className, t.interfaceNamespace))
            && (RepositoryPath(t) !in fs && RepositoryPath(t) != BaseRepositoryPath ==>
                  files[RepositoryPath(t)] == RepositoryContent(t.className, t.namespace, t.interfaceNamespace))
  {
    var t := Resolve(o);
    RootsAreDisjoint(t);
    var afterBase := EnsureBaseFilesExist(fs, base);
    var afterInterface := CreateInterface(t, afterBase);
    assert Handle(o, fs, base).files == Generate(t, fs, base) == CreateRepository(t, afterInterface);
  }

  /**
   * With the shipped base bodies, a run on an application that has no base
   * files yet leaves behind the declarations the generated files import:
   * `interface BaseInterface` in `App\Interfaces` and
   * `class BaseRepository implements BaseInterface` in `App\Repositories`.
   */
  lemma ShippedBaseFilesDeclareImports(o: Options, fs: Files)
    requires Validate(o) == Accepted && BaseInterfacePath !in fs && BaseRepositoryPath !in fs
    ensures var files := Handle(o, fs, SourceBaseBodies()).files;
            && Contains(files[BaseInterfacePath], "namespace App\\Interfaces;" + "\n")
            && Contains(files[BaseInterfacePath], "interface BaseInterface" + "\n")
            && Contains(files[BaseRepositoryPath], "namespace App\\Repositories;" + "\n")
            && Contains(files[BaseRepositoryPath], "class BaseRepository implements BaseInterface" + "\n")
  {
    HandleWritesTemplates(o, fs, SourceBaseBodies());
  }

  /** A second identical run reports the same and changes nothing. */
  lemma RerunChangesNothing(o: Options, fs: Files, base: BaseBodies)
    ensures Handle(o, Handle(o, fs, base).files, base) == Handle(o, fs, base)
  {
  }

  /** `--name=Base` without `--subdir` writes nothing beyond the two base files. */
  lemma BaseNameWritesOnlyBaseFiles(o: Options, fs: Files, base: BaseBodies)
    requires Validate(o) == Accepted && ClassName(o) == "Base" && !Truthy(o.subdir)
    ensures Handle(o, fs, base).files.Keys == fs.Keys + {BaseInterfacePath, BaseRepositoryPath}
    ensures BaseInterfacePath !in fs ==> Handle(o, fs, base).files[BaseInterfacePath] == base.interfaceText
  {
    var t := Resolve(o);
    InterfaceCollidesWithBase(t);
    RepositoryCollidesWithBase(t);
  }
}
