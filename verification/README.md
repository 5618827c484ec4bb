# make:repository and make:service, modelled in Dafny

This project models the two Artisan scaffolding commands of the `make-ris`
Laravel package:

- `make:repository {--model=} {--subdir=} {--name=}` makes sure
  `Interfaces/BaseInterface.php` and `Repositories/BaseRepository.php` exist.
  It then creates `{Class}Interface.php` and `{Class}Repository.php`. Every
  file is written only when its path is free, so nothing is ever overwritten.
- `make:service {--controller=} {--subdir=} {--name=}` writes one
  `Services/…/{Class}.php`. If that file already exists, the operator is
  asked whether to overwrite it.

Without the Laravel plumbing, each command is a pure function. It takes the
options, the current files (`map<string, string>` keyed by path relative to
the application directory) and, for the service, the operator's answer to
the overwrite prompt. It returns what the run reports and the files it
leaves behind.

Modules, one per concern:

- `Wrappers` (`wrappers.dfy`): `Option`, which models an option that was not passed.
- `Php` (`php.dfy`): the PHP semantics the commands rely on.
  - Truthiness of a `?string`: `null`, `""` and `"0"` are falsy.
  - The empty-value check: the option was passed and is exactly `""`.
  - `ucfirst` and `lcfirst` (ASCII only, as in PHP 8.2+).
  - `str_replace` for one character.
  - Heredocs, modelled as lines joined by `"\n"`.
  - Prefix, suffix and substring predicates. The commands do not call these;
    they state what a rendered template holds.
- `FileStore` (`files.dfy`): the file map, plus "write if absent" and "write".
- `CommandOptions` (`options.dfy`): what both commands share.
  - The options record. `primary` stands for `--model` or `--controller`.
  - The two validation checks, in the order the code runs them.
  - The choice between `--name` and the primary option.
  - `$subdir ? $subdir . '/' : ''`.
- `RepositoryCommand` (`repository.dfy`) and `ServiceCommand` (`service.dfy`): the two commands.
- `Scenarios` (`scenarios.dfy`): concrete runs, including the edge cases that PHP truthiness creates.

Behaviour of the code that the model keeps as it is:

- The repository command keeps `/` in both namespaces:
  `--subdir=Billing/Invoices` yields `namespace App\Repositories\Billing/Invoices;`
  (`Scenarios.NestedOrderNamespaces`). The service command turns each `/` into
  `\`, so its fragment is `\Billing\Invoices` (`Scenarios.ServiceInSubdirectory`).
- Neither command capitalises the service name, normalises a path, or edits a
  provider file.
- `--subdir=0` passes the empty-value check but is falsy. The run then behaves as
  if no sub-directory had been given. Likewise `--name=0` falls back to
  `--model`/`--controller`.
- `make:repository --name=Base` without `--subdir` aims its two files at the
  paths of the base files, which were written just before. So it writes nothing
  of its own (`RepositoryCommand.BaseNameWritesOnlyBaseFiles`).
- The missing-identifier check runs before the empty-value check. So `--model=`
  alone is reported as missing, not as empty.

## Model

| member | source | states |
|---|---|---|
| Php.EmptyValueIsFalsy | src/Console/Commands/MakeRepositoryCommand.php:327-331 | An option passed as "" is falsy, and an omitted option is neither truthy nor an empty value |
| Php.Truthy | src/Console/Commands/MakeRepositoryCommand.php:22 | `!$model && !$name` on a `?string`: a truthy value is a passed, non-empty string; every string of two or more characters is truthy, and a one-character string is truthy exactly when it is not `"0"` |
| Php.IsEmptyValue | src/Console/Commands/MakeRepositoryCommand.php:327-331 | `$value !== null && $value === ''`: exactly a passed option of length zero, which is therefore falsy |
| Php.Ucfirst | src/Console/Commands/MakeRepositoryCommand.php:36 | `ucfirst` keeps the length, upper-cases only a lower-case first letter and leaves the rest unchanged |
| Php.Lcfirst | src/Console/Commands/MakeRepositoryCommand.php:152-155 | `camelCase` is `lcfirst`: same length, only an upper-case first letter is lowered, the rest unchanged |
| Php.CaseFirstPartners | src/Console/Commands/MakeRepositoryCommand.php:152-155 | `ucfirst` is idempotent, and `lcfirst` after `ucfirst` (or the reverse) is the same as applying only the outer one |
| Php.UcfirstKeepsTruthy | src/Console/Commands/MakeRepositoryCommand.php:36 | `ucfirst` of a string is truthy exactly when the string is, so a validated name never becomes "" or "0" |
| Php.Replace | src/Console/Commands/MakeServiceCommand.php:30 | `str_replace('/', '\\', …)` keeps the length and changes exactly the occurrences of the searched character |
| Php.ReplaceRemoves | src/Console/Commands/MakeServiceCommand.php:30 | After the replacement no slash is left |
| Php.ReplaceRoundTrip | src/Console/Commands/MakeServiceCommand.php:30 | Replacing back restores the input when it held no replacement character |
| Php.JoinContainsLine | src/Console/Commands/MakeRepositoryCommand.php:80-91 | Every line of a heredoc occurs in its text, followed by a newline unless it is the last line |
| FileStore.PutIfAbsent | src/Console/Commands/MakeRepositoryCommand.php:55-61 | `if (!File::exists) File::put`: adds the path, keeps every existing file, and stores the content only if the path was free |
| FileStore.Put | src/Console/Commands/MakeServiceCommand.php:49 | `File::put` stores the content at the path and changes no other file |
| FileStore.PutIfAbsentIdempotent | src/Console/Commands/MakeRepositoryCommand.php:79-93 | Writing if absent twice is the same as once |
| CommandOptions.Validate | src/Console/Commands/MakeRepositoryCommand.php:22-34 | Missing exactly when neither the primary option nor the name is truthy; otherwise empty-value exactly when some option is `Some("")`; otherwise accepted |
| CommandOptions.EmptyRejectedOmittedAccepted | src/Console/Commands/MakeServiceCommand.php:23-26 | Passing `--subdir=""` is always rejected, while omitting it is accepted unless another option is "" |
| CommandOptions.ChosenName | src/Console/Commands/MakeRepositoryCommand.php:36 | The name if truthy, else the primary option; the result is always truthy |
| CommandOptions.Directory | src/Console/Commands/MakeRepositoryCommand.php:37 | Empty exactly when the sub-directory is falsy; otherwise the sub-directory followed by one slash |
| RepositoryCommand.ClassName | src/Console/Commands/MakeRepositoryCommand.php:36 | The chosen name with only its first character upper-cased; always truthy |
| RepositoryCommand.SubNamespace | src/Console/Commands/MakeRepositoryCommand.php:38-39 | The root alone without a sub-directory; otherwise the root, a backslash and the sub-directory verbatim |
| RepositoryCommand.Resolve | src/Console/Commands/MakeRepositoryCommand.php:36-39 | The resolved class name is truthy and agrees with the chosen name after its first character; the directory is empty exactly when the sub-directory is falsy; each namespace starts with its root |
| RepositoryCommand.NamespacesFollowDirectory | src/Console/Commands/MakeRepositoryCommand.php:37-39 | Both namespaces are the bare roots exactly when the directory is empty; otherwise the root, a backslash and the directory without its trailing slash |
| RepositoryCommand.InterfacePath | src/Console/Commands/MakeRepositoryCommand.php:73 | The interface path starts with `Interfaces/` and the directory, and the rest is `{Class}Interface.php` |
| RepositoryCommand.RepositoryPath | src/Console/Commands/MakeRepositoryCommand.php:112 | The repository path starts with `Repositories/` and the directory, and the rest is `{Class}Repository.php` |
| RepositoryCommand.ClassFilesAreDistinct | src/Console/Commands/MakeRepositoryCommand.php:73-112 | Within one directory, two classes get the same interface path, or the same repository path, if and only if they are the same class |
| RepositoryCommand.CollidesWithBaseIff | src/Console/Commands/MakeRepositoryCommand.php:52-53 | As strings, a class path equals its base file's path if and only if there is no sub-directory and the class is `Base` |
| RepositoryCommand.InterfaceCollidesWithBase | src/Console/Commands/MakeRepositoryCommand.php:73 | As strings, the interface path is `Interfaces/BaseInterface.php` if and only if the directory is empty and the class is `Base` |
| RepositoryCommand.RepositoryCollidesWithBase | src/Console/Commands/MakeRepositoryCommand.php:112 | As strings, the repository path is `Repositories/BaseRepository.php` if and only if the directory is empty and the class is `Base` |
| RepositoryCommand.RootsAreDisjoint | src/Console/Commands/MakeRepositoryCommand.php:112 | Interface and repository paths never coincide, and neither hits the other root's base file |
| RepositoryCommand.SourceBaseBodies | src/Console/Commands/MakeRepositoryCommand.php:162-319 | The shipped base texts start with `<?php`; the interface one declares `namespace App\Interfaces;` and `interface BaseInterface`, the repository one `namespace App\Repositories;` and `class BaseRepository implements BaseInterface` |
| RepositoryCommand.BaseInterfaceDeclares | src/Console/Commands/MakeRepositoryCommand.php:164-174 | The `getBaseInterfaceContent` heredoc starts with `<?php` and holds the namespace line and the `interface BaseInterface` line |
| RepositoryCommand.BaseRepositoryDeclares | src/Console/Commands/MakeRepositoryCommand.php:227-241 | The `getBaseRepositoryContent` heredoc starts with `<?php` and holds the namespace line and the `class BaseRepository implements BaseInterface` line |
| RepositoryCommand.InterfaceContent | src/Console/Commands/MakeRepositoryCommand.php:80-91 | The `createInterface` heredoc is a PHP file that starts with `<?php` and ends with the closing brace and a newline |
| RepositoryCommand.RepositoryContent | src/Console/Commands/MakeRepositoryCommand.php:119-141 | The `createRepository` heredoc is a PHP file that starts with `<?php` and ends with the closing brace and a newline |
| RepositoryCommand.InterfaceContentShape | src/Console/Commands/MakeRepositoryCommand.php:80-91 | The interface text starts with `<?php`, declares the given namespace and `interface {Class}Interface extends BaseInterface` |
| RepositoryCommand.RepositoryContentShape | src/Console/Commands/MakeRepositoryCommand.php:119-128 | The repository text starts with `<?php`, declares its namespace, imports `{Class}Interface` from the interface namespace and declares `class {Class}Repository extends BaseRepository implements {Class}Interface` |
| RepositoryCommand.RepositoryConstructorParameter | src/Console/Commands/MakeRepositoryCommand.php:133-137 | The repository's constructor takes the model as `{Class} ${lcfirst(Class)}` |
| RepositoryCommand.EnsureBaseFilesExist | src/Console/Commands/MakeRepositoryCommand.php:50-62 | Both base paths exist afterwards, existing files are kept, and a base file is written only where none existed |
| RepositoryCommand.CreateInterface | src/Console/Commands/MakeRepositoryCommand.php:71-94 | Adds the interface path, keeps every existing file, and writes the interface text only if the path was free |
| RepositoryCommand.CreateRepository | src/Console/Commands/MakeRepositoryCommand.php:105-144 | Adds the repository path, keeps every existing file, and writes the repository text only if the path was free |
| RepositoryCommand.Generate | src/Console/Commands/MakeRepositoryCommand.php:41-44 | The three file steps add exactly the four artifact paths and keep every existing file |
| RepositoryCommand.Handle | src/Console/Commands/MakeRepositoryCommand.php:16-45 | Reports the validation verdict; a rejected run changes no file; an accepted run adds exactly the four artifact paths and never changes an existing file |
| RepositoryCommand.HandleWritesTemplates | src/Console/Commands/MakeRepositoryCommand.php:41-44 | On an accepted run each free path receives its template: the base bodies, the interface text and the repository text, unless an earlier step took the path |
| RepositoryCommand.ShippedBaseFilesDeclareImports | src/Console/Commands/MakeRepositoryCommand.php:50-61 | With the shipped bodies, a run on an application without base files leaves `App\Interfaces\BaseInterface` and `App\Repositories\BaseRepository implements BaseInterface` declared, which is what the generated files import and extend |
| RepositoryCommand.RerunChangesNothing | src/Console/Commands/MakeRepositoryCommand.php:50-144 | Running the same command again reports the same and leaves the files unchanged |
| RepositoryCommand.BaseNameWritesOnlyBaseFiles | src/Console/Commands/MakeRepositoryCommand.php:41-43 | With class `Base` and no sub-directory, only the two base paths are added, and a fresh base interface gets the base body |
| ServiceCommand.ClassName | src/Console/Commands/MakeServiceCommand.php:28 | The name itself if truthy, otherwise the controller followed by `Service`; no capitalisation; always truthy |
| ServiceCommand.NamespaceFragment | src/Console/Commands/MakeServiceCommand.php:30 | Empty exactly without a truthy sub-directory; otherwise a backslash and then the sub-directory with each slash turned into a backslash, so no slash remains |
| ServiceCommand.NamespaceFollowsDirectory | src/Console/Commands/MakeServiceCommand.php:29-30 | The directory written with backslashes is the namespace fragment (minus its leading backslash) plus a trailing backslash |
| ServiceCommand.NamespaceRoundTrip | src/Console/Commands/MakeServiceCommand.php:30 | A sub-directory without backslashes is recovered from the namespace fragment |
| ServiceCommand.ServicePath | src/Console/Commands/MakeServiceCommand.php:32 | The service path starts with `Services/` and the directory, and the rest is `{Class}.php` |
| ServiceCommand.ServiceContent | src/Console/Commands/MakeServiceCommand.php:60-72 | `getServiceContent` is a PHP file that starts with `<?php` and ends with the closing brace and no newline, so the `PHP_EOL` that `createFile` appends is its only trailing newline |
| ServiceCommand.ServiceContentShape | src/Console/Commands/MakeServiceCommand.php:60-72 | The service text starts with `<?php`, declares `namespace App\Services{fragment};` and `class {Class}` |
| ServiceCommand.CreateFile | src/Console/Commands/MakeServiceCommand.php:39-52 | Skipped exactly when the file exists and the overwrite is declined (files unchanged); otherwise the file holds the content plus one `PHP_EOL` and no other file changes |
| ServiceCommand.Handle | src/Console/Commands/MakeServiceCommand.php:12-37 | A rejected run reports the verdict and changes nothing; an accepted run is skipped exactly when the file exists and confirmation is declined, otherwise it stores the rendered text plus `PHP_EOL`; only the service path is ever added |
| ServiceCommand.ConfirmedRerunIsStable | src/Console/Commands/MakeServiceCommand.php:32-51 | Re-running with the overwrite confirmed reports the same and leaves byte-identical files |
| ServiceCommand.DeclinedRerunSkips | src/Console/Commands/MakeServiceCommand.php:41-45 | After any accepted run, declining the overwrite on a re-run is skipped and changes nothing |
| ServiceCommand.ConfirmationOnlyMattersIfPresent | src/Console/Commands/MakeServiceCommand.php:41-46 | When the file does not exist, the operator's answer makes no difference |
| Scenarios.OrderTarget | src/Console/Commands/MakeRepositoryCommand.php:36-39 | `--model=Order` resolves to class `Order`, the bare namespaces and the paths `Interfaces/OrderInterface.php` and `Repositories/OrderRepository.php` |
| Scenarios.OrderResolves | src/Console/Commands/MakeRepositoryCommand.php:36-39 | `--model=Order` resolves to class `Order`, no directory and the bare namespaces |
| Scenarios.RepositoryForOrder | src/Console/Commands/MakeRepositoryCommand.php:41-44 | `--model=Order` with no files yet (the `app/Interfaces` and `app/Repositories` directories present) creates exactly the two base files, `OrderInterface.php` and `OrderRepository.php` |
| Scenarios.NestedOrderClassName | src/Console/Commands/MakeRepositoryCommand.php:36-37 | `--model=order --subdir=Billing/Invoices` gives class `Order` and directory `Billing/Invoices/` |
| Scenarios.NestedOrderPathsOf | src/Console/Commands/MakeRepositoryCommand.php:73-112 | The class `Order` in `Billing/Invoices/` lands under that directory of each root |
| Scenarios.NestedOrderPaths | src/Console/Commands/MakeRepositoryCommand.php:73 | The same run places both files under `Billing/Invoices/` of their roots |
| Scenarios.NestedOrderNamespaces | src/Console/Commands/MakeRepositoryCommand.php:38-39 | The same run's namespaces keep the slash: `App\Repositories\Billing/Invoices` and `App\Interfaces\Billing/Invoices` |
| Scenarios.ZeroSubdirIsIgnored | src/Console/Commands/MakeRepositoryCommand.php:37-39 | `--subdir=0` is accepted and resolves exactly as if no sub-directory were given |
| Scenarios.ZeroNameFallsBack | src/Console/Commands/MakeRepositoryCommand.php:22-36 | `--name=0` falls back to `--model`, and alone it is reported as missing |
| Scenarios.MissingCheckedBeforeEmpty | src/Console/Commands/MakeRepositoryCommand.php:22-34 | `--model=` alone is reported as missing; `--model=Order --name=` as an empty value; neither changes a file |
| Scenarios.ServiceForInvoice | src/Console/Commands/MakeServiceCommand.php:28-34 | `--controller=Invoice` with no files yet creates only `Services/InvoiceService.php`, for class `InvoiceService` |
| Scenarios.ServiceInSubdirectory | src/Console/Commands/MakeServiceCommand.php:29-32 | With `--subdir=Billing/Invoices` the fragment is `\Billing\Invoices` and the path `Services/Billing/Invoices/InvoiceService.php` |
| Scenarios.ServiceFragmentOfBillingInvoices | src/Console/Commands/MakeServiceCommand.php:30 | `--subdir=Billing/Invoices` gives the namespace fragment `\Billing\Invoices` |
| Scenarios.ServicePathUnderBillingInvoices | src/Console/Commands/MakeServiceCommand.php:28-32 | `--controller=Invoice --subdir=Billing/Invoices` writes to `Services/Billing/Invoices/InvoiceService.php` |

## Left out

- The Laravel plumbing is not modelled: `option()`, `error()`, `info()`,
  `confirm()` and `app_path()`.
  - Options are `Option<string>` values.
  - The prompt's answer is a boolean parameter.
  - Paths are relative to the application directory.
  - Console messages become a verdict or outcome. This includes the service
    command's "created successfully" line, which it prints even after "Skipped".
- Directories are not modelled: `File::ensureDirectoryExists` (mode 0755,
  recursive) and `File::chmod($path, 0755)`.
  - In the model, a file can always be written.
  - In the code, `BaseInterface.php` is written before any directory is
    ensured. That write would fail in an application without `app/Interfaces`.
  - `File::exists` is also true for a directory. The model has no directories.
- Filesystem errors (a failed `File::put`) and concurrent runs are not modelled.
- Paths are compared as strings. Aliases that `File::exists` resolves to one
  file are distinct keys here: `//`, `/./`, `/../`, and names that differ only in
  case on a case-insensitive disk. For example, `--subdir=Billing/` yields the
  key `Services/Billing//InvoiceService.php`, which the model does not identify
  with `Services/Billing/InvoiceService.php`.
- RepositoryCommand.Handle: takes the two base file bodies as a parameter.
  - It only ever writes them verbatim.
  - `RepositoryCommand.SourceBaseBodies` holds the text the command ships.
  - Only the opening of that text, up to the interface or class declaration,
    is reasoned about.
- `ucfirst`/`lcfirst`/`str_replace` work on characters here. PHP works on bytes.
  Only ASCII letters change case, so the two agree except for multi-byte input.
- `PHP_EOL` is taken as `"\n"` (a Unix host).
- The `$model` argument of `createRepository` is unused by the code and not passed in the model.
- The runtime behaviour of the generated PHP classes is not modelled.
- src/MakeRISServiceProvider.php only registers the two commands with the
  console kernel and is not part of this model.
- DI provider-file patching is not modelled. There is no such code in the
  commands.
