/** Concrete runs of both commands, including the edge cases PHP truthiness creates. */
module Scenarios {
  import opened Wrappers
  import opened Php
  import opened FileStore
  import opened CommandOptions
  import RepositoryCommand
  import ServiceCommand

  /** The options of `make:repository --model=Order`. */
  function OrderOptions(): Options {
    Options(Some("Order"), None, None)
  }

  /** The options of `make:repository --model=order --subdir=Billing/Invoices`. */
  function NestedOrderOptions(): Options {
    Options(Some("order"), Some("Billing/Invoices"), None)
  }

  /** The two artifact paths of the class `Order` under a directory. */
  lemma OrderPaths(t: RepositoryCommand.Target)
    requires t.className == "Order"
    ensures RepositoryCommand.InterfacePath(t) == "Interfaces/" + t.directory + "OrderInterface.php"
    ensures RepositoryCommand.RepositoryPath(t) == "Repositories/" + t.directory + "OrderRepository.php"
  {
  }

  /** `make:repository --model=Order` resolves to the bare roots and the class `Order`. */
  lemma OrderTarget()
    ensures var t := RepositoryCommand.Resolve(OrderOptions());
            && t == RepositoryCommand.Target("Order", "", "App\\Repositories", "App\\Interfaces")
            && RepositoryCommand.InterfacePath(t) == "Interfaces/" + "OrderInterface.php"
            && RepositoryCommand.RepositoryPath(t) == "Repositories/" + "OrderRepository.php"
  {
    OrderResolves();
    OrderPaths(RepositoryCommand.Resolve(OrderOptions()));
  }

  lemma OrderResolves()
    ensures RepositoryCommand.Resolve(OrderOptions()) == RepositoryCommand.Target("Order", "", "App\\Repositories", "App\\Interfaces")
  {
    assert Ucfirst("Order") == "Order";
  }

  /** `make:repository --model=Order` with no files yet (both root directories present): four new files under the two roots. */
  lemma RepositoryForOrder(base: RepositoryCommand.BaseBodies)
    ensures RepositoryCommand.Handle(OrderOptions(), map[], base).files.Keys ==
            {"Interfaces/BaseInterface.php", "Repositories/BaseRepository.php",
             "Interfaces/" + "OrderInterface.php", "Repositories/" + "OrderRepository.php"}
  {
    OrderTarget();
  }

  /** `--model=order --subdir=Billing/Invoices`: the class name is capitalised. */
  lemma NestedOrderClassName()
    ensures RepositoryCommand.Resolve(NestedOrderOptions()).className == "Order"
    ensures RepositoryCommand.Resolve(NestedOrderOptions()).directory == "Billing/Invoices/"
  {
  }

  /** The class `Order` in the directory `Billing/Invoices/` lands under that directory of each root. */
  lemma NestedOrderPathsOf(t: RepositoryCommand.Target)
    requires t.className == "Order" && t.directory == "Billing/Invoices/"
    ensures RepositoryCommand.InterfacePath(t) == "Interfaces/" + "Billing/Invoices/" + "OrderInterface.php"
    ensures RepositoryCommand.RepositoryPath(t) == "Repositories/" + "Billing/Invoices/" + "OrderRepository.php"
  {
    OrderPaths(t);
  }

  /** `--model=order --subdir=Billing/Invoices`: both files go under the sub-directory of their root. */
  lemma NestedOrderPaths()
    ensures var t := RepositoryCommand.Resolve(NestedOrderOptions());
            && RepositoryCommand.InterfacePath(t) == "Interfaces/" + "Billing/Invoices/" + "OrderInterface.php"
            && RepositoryCommand.RepositoryPath(t) == "Repositories/" + "Billing/Invoices/" + "OrderRepository.php"
  {
    NestedOrderClassName();
    NestedOrderPathsOf(RepositoryCommand.Resolve(NestedOrderOptions()));
  }

  /** `--model=order --subdir=Billing/Invoices`: both namespaces keep the slash of the sub-directory. */
  lemma NestedOrderNamespaces()
    ensures var t := RepositoryCommand.Resolve(NestedOrderOptions());
            && t.namespace == "App\\Repositories\\Billing/Invoices"
            && t.interfaceNamespace == "App\\Interfaces\\Billing/Invoices"
  {
    assert "App\\Repositories" + "\\" + "Billing/Invoices" == "App\\Repositories\\Billing/Invoices";
    assert "App\\Interfaces" + "\\" + "Billing/Invoices" == "App\\Interfaces\\Billing/Invoices";
  }

  /** `--subdir=0` passes the empty-value check but is falsy, so it acts as if no sub-directory were given. */
  lemma ZeroSubdirIsIgnored()
    ensures var o := Options(Some("Order"), Some("0"), None);
            && Validate(o) == Accepted
            && RepositoryCommand.Resolve(o) == RepositoryCommand.Resolve(Options(Some("Order"), None, None))
  {
  }

  /** `--name=0` is falsy: the class name comes from `--model`, and without `--model` the run is refused. */
  lemma ZeroNameFallsBack()
    ensures RepositoryCommand.ClassName(Options(Some("order"), None, Some("0"))) == "Order"
    ensures Validate(Options(None, None, Some("0"))) == MissingPrimaryOrName
  {
  }

  /** The missing-identifier check runs first: `--model=` alone is reported as missing, not as empty. */
  lemma MissingCheckedBeforeEmpty(base: RepositoryCommand.BaseBodies, fs: Files)
    ensures RepositoryCommand.Handle(Options(Some(""), None, None), fs, base) == RepositoryCommand.Run(MissingPrimaryOrName, fs)
    ensures RepositoryCommand.Handle(Options(Some("Order"), None, Some("")), fs, base) == RepositoryCommand.Run(EmptyOptionValue, fs)
  {
  }

  /** `make:service --controller=Invoice`: one file, `InvoiceService`, under the services root. */
  lemma ServiceForInvoice()
    ensures var o := Options(Some("Invoice"), None, None);
            var r := ServiceCommand.Handle(o, map[], false);
            && ServiceCommand.ClassName(o) == "InvoiceService"
            && r.outcome == ServiceCommand.Created
            && r.files.Keys == {"Services/InvoiceService.php"}
  {
    var o := Options(Some("Invoice"), None, None);
    assert ServiceCommand.ClassName(o) == "InvoiceService";
    assert ServiceCommand.ServicePath(o) == "Services/InvoiceService.php";
  }

  /** `make:service --controller=Invoice --subdir=Billing/Invoices`: the namespace uses backslashes, the path slashes. */
  lemma ServiceInSubdirectory()
    ensures var o := Options(Some("Invoice"), Some("Billing/Invoices"), None);
            && ServiceCommand.NamespaceFragment(o.subdir) == "\\Billing\\Invoices"
            && ServiceCommand.ServicePath(o) == "Services/" + "Billing/Invoices/" + "InvoiceService.php"
  {
    ServiceFragmentOfBillingInvoices();
    ServicePathUnderBillingInvoices();
  }

  lemma ServiceFragmentOfBillingInvoices()
    ensures ServiceCommand.NamespaceFragment(Some("Billing/Invoices")) == "\\Billing\\Invoices"
  {
    var r := Replace("Billing/Invoices", '/', '\\');
    assert forall i :: 0 <= i < |r| ==> r[i] == "Billing\\Invoices"[i];
    assert "\\" + "Billing\\Invoices" == "\\Billing\\Invoices";
  }

  lemma ServicePathUnderBillingInvoices()
    ensures ServiceCommand.ServicePath(Options(Some("Invoice"), Some("Billing/Invoices"), None))
            == "Services/" + "Billing/Invoices/" + "InvoiceService.php"
  {
    var o := Options(Some("Invoice"), Some("Billing/Invoices"), None);
    assert ServiceCommand.ClassName(o) == "InvoiceService";
    assert Directory(o.subdir) == "Billing/Invoices/";
  }
}
