# Package system of ABCL, modelled in Dafny

This project models the symbol-table core of the ABCL Lisp runtime, the class
`org.armedbear.lisp.Package`. A package owns:

- two name-to-symbol tables, *internal* and *external*;
- an optional *shadowing* table;
- a *use-list* of the packages it inherits from, in precedence order;
- a *used-by* back-list;
- a *deleted* flag.

Symbols have an immutable name and a mutable home package.

How the model is built:

- **Store.** The whole system is one store. Package ids and symbol ids are indices into sequences, so `pkgs[p]` is package p and `symName[s]`/`symHome[s]` are the name and home of symbol s. Packages are never removed; delete only flags them. A `null` map or list in the source is an empty map or sequence here.
- **Class.** `PackageWorld.World` is a class with those three fields. It has one method per operation, and each method updates the fields in place as the Java methods do. The lookups are read-only `while` loops over the use-list, as in the source. `unusePackage` rebuilds the use-list in a loop. `delete` walks the use-list and then drains the used-by list.
- **Step functions.** Each method is proved against a function over store values in module `Operations` (`InternStep`, `ExportStep`, `UseStep`, …). The method's ensures is `Step(r, State()) == XStep(old(State()), …)`.
- **Laws.** What each step means is proved about those functions in modules `ExportLaws`, `SymbolLaws` and `UseLaws`. Lookup order is proved in `Tables`.
- **Invariant.** `Invariant.Inv` is the invariant on the store:
  - a name is never both internal and external in a package;
  - each table is keyed by its symbols' names;
  - every shadowing symbol is stored locally under its name;
  - use-list and used-by list are mirror images without repeats;
  - a symbol's home package stores it under its name.

  Every operation keeps `Inv`, except the two as-written operations listed under "## Findings".
- **Errors.** A Lisp `PACKAGE-ERROR` becomes `Fail(error)` or `Err(error)`. `error` never returns normally, so the code after each call to it is not modelled.

Three points where the model follows the code of Package.java as written:

- **Export.** The code stages a symbol homed elsewhere in the internal table before the conflict check (Package.java:590). It leaves the symbol there when it signals a conflict (606), so the name can end up in both tables, against the comment at 50-53. It excuses a conflict only by the *exporting* package's shadowing table (598), where the Common Lisp rule for name conflicts (section 11.1.1.2.5 of the Common Lisp HyperSpec) excuses it by the *using* package's shadowing symbols. `ExportStep` is the code, and `Export` and `InternAndExport` use it. `ExportAtomicStep` is the corrected export: a refused export changes nothing, and the using package's shadowing excuses a conflict. `ExportAtomic` and `InternAndExportAtomic` use it; see "## Findings".
- **use-package order.** The code pushes the used package on the front of the use-list (Package.java:728). `UseStep` pushes.
- **Shadowing table.** `shadow` marks an external symbol as shadowing when the name is external (Package.java:650-653), so `Inv` only requires shadowing symbols to be stored locally, not internal.

## Model

| member | source | states |
|---|---|---|
| PackageWorld.World.NewPackage | src/org/armedbear/lisp/Package.java:44-75 | a new package has empty tables, empty use-list and used-by list, and is not deleted; it gets the next id, no other package and no symbol changes, and the invariant is kept |
| Tables.FindOrder | src/org/armedbear/lisp/Package.java:293-318 | find-symbol reports external first, then internal, then the first used package (in use-list order) exporting the name, tagged INHERITED; it reports not-found exactly when no table has the name |
| Tables.InheritedFirstHit | src/org/armedbear/lisp/Package.java:237-246 | the inherited symbol is the one exported by the first used package that exports the name, and no other |
| Tables.InheritedFrom | src/org/armedbear/lisp/Package.java:237-246 | an inherited hit is exported by some used package; a miss means no used package exports the name |
| PackageWorld.World.FindAccessibleSymbol | src/org/armedbear/lisp/Package.java:228-249 | the loop returns exactly the symbol accessible under the name (external, internal, then inherited), or none |
| PackageWorld.World.FindSymbol | src/org/armedbear/lisp/Package.java:293-318 | the loop returns the accessible symbol with its locality, or NotFound |
| PackageWorld.World.FindInternalSymbol | src/org/armedbear/lisp/Package.java:200-203 | a hit exactly when the internal table has the name; the symbol has that name and find-symbol calls it INTERNAL |
| PackageWorld.World.FindExternalSymbol | src/org/armedbear/lisp/Package.java:210-213 | a hit exactly when the external table has the name; the symbol has that name and find-symbol calls it EXTERNAL |
| PackageWorld.World.GetLocalNames | src/org/armedbear/lisp/Package.java:521-537 | at most one name; a name is listed exactly when the symbol is accessible under it |
| PackageWorld.World.Uses | src/org/armedbear/lisp/Package.java:770-773 | p uses q exactly when p is on q's used-by list |
| Invariant.AccessibleNamed | src/org/armedbear/lisp/Package.java:48-55 | under the invariant, whatever a name resolves to is a symbol of that name |
| Invariant.ShadowPrecedence | src/org/armedbear/lisp/Package.java:57 | a shadowing symbol is what its name resolves to, never an inherited one |
| Invariant.LocalNamesExact | src/org/armedbear/lisp/Package.java:521-537 | the local names of a symbol are exactly the names under which it is accessible |
| PackageWorld.World.AddSymbol | src/org/armedbear/lisp/Package.java:329-333 | a fresh symbol, homed in p, stored in p's internal table under its name; the invariant is kept |
| PackageWorld.World.Intern | src/org/armedbear/lisp/Package.java:359-381 | computes `InternStep` and keeps the invariant |
| PackageWorld.World.InternWithLocality | src/org/armedbear/lisp/Package.java:383-406 | computes `InternStep`; the second value is the locality find-symbol gave before, none for a fresh symbol |
| SymbolLaws.InternMeaning | src/org/armedbear/lisp/Package.java:359-381 | the result is accessible under the name; an existing symbol leaves the store unchanged; otherwise the symbol is the next id, homed here, and INTERNAL |
| SymbolLaws.InternIdempotent | src/org/armedbear/lisp/Package.java:359-381 | interning the same name again returns the same symbol and changes nothing |
| PackageWorld.World.InternAndExport | src/org/armedbear/lisp/Package.java:408-439 | computes `InternAndExportStep`, which exports an accessible symbol by the as-written `ExportStep`, and keeps the invariant |
| SymbolLaws.InternAndExportMeaning | src/org/armedbear/lisp/Package.java:408-439 | keeps the invariant; on success the name is EXTERNAL here with the returned symbol; an already external symbol is returned and nothing changes; an accessible symbol is the one returned, and a successful export leaves exactly the store `MoveExternal` gives (no new symbol, no home change); a refused export reports a using package that sees a different symbol under the name, and leaves a symbol homed elsewhere staged in p's internal table (`StoreInternal`), the store otherwise unchanged; when nothing is accessible, a fresh symbol homed here is added to the external table only, and the store is exactly that |
| PackageWorld.World.InternAndExportAtomic | src/org/armedbear/lisp/Package.java:408-439 | the corrected composition: computes `InternAndExportAtomicStep`, internAndExport over the all-or-nothing export, and keeps the invariant |
| SymbolLaws.InternAndExportAtomicMeaning | src/org/armedbear/lisp/Package.java:408-439 | as for the as-written composition on success and on the fresh path; a refused export changes nothing |
| PackageWorld.World.FindExportConflict | src/org/armedbear/lisp/Package.java:594-611 | the used-by scan returns the first using package that has a different, unexcused symbol under the name |
| PackageWorld.World.Export | src/org/armedbear/lisp/Package.java:562-626 | computes the as-written `ExportStep`; the invariant is kept when export passes |
| ExportLaws.ExportPasses | src/org/armedbear/lisp/Package.java:562-626 | a passing export moves the name from internal to external and keeps the invariant; every using package then sees the symbol, unless it was homed here and already external |
| ExportLaws.ExportFails | src/org/armedbear/lisp/Package.java:562-611 | not-accessible exactly when the symbol is not what its name resolves to, and then nothing changes; a conflict names a using package that has a different symbol under the name; the store keeps the staged internal entry |
| ExportLaws.ExportPassShape | src/org/armedbear/lisp/Package.java:590-617 | a passing export leaves the store with the name moved to the external table, and the scan found no conflict unless the symbol was homed here and already external |
| ExportLaws.ExporterExcuseDead | src/org/armedbear/lisp/Package.java:598 | under the invariant, the exporting package's own shadowing table never excuses a conflict |
| ExportLaws.ConflictRulesAgree | src/org/armedbear/lisp/Package.java:594-611 | when no using package shadows the name, the as-written and the corrected conflict rules find the same conflict |
| ExportLaws.ExportAgreement | src/org/armedbear/lisp/Package.java:562-626 | for a name that is not yet external and that no using package shadows, as-written and all-or-nothing export give the same outcome, and the same store on success |
| PackageWorld.World.ExportAtomic | src/org/armedbear/lisp/Package.java:562-626 | computes `ExportAtomicStep` and keeps the invariant |
| ExportLaws.ExportAtomicPasses | src/org/armedbear/lisp/Package.java:612-615 | success moves the name to the external table and keeps the invariant; every using package then sees the symbol or keeps its own shadowing one |
| ExportLaws.ExportAtomicFailUnchanged | src/org/armedbear/lisp/Package.java:594-611 | a refused export changes nothing, and the error is not-accessible or an export conflict |
| ExportLaws.ExportAtomicNotAccessible | src/org/armedbear/lisp/Package.java:563-574 | not-accessible exactly when the symbol is not what its name resolves to here |
| ExportLaws.ExportAtomicConflict | src/org/armedbear/lisp/Package.java:594-611 | an export conflict exactly when the symbol is accessible, not yet external, and some using package has a different symbol under the name that it does not shadow |
| ExportLaws.ExportAtomicConflictWitness | src/org/armedbear/lisp/Package.java:597-608 | the reported package uses p and has the reported different symbol accessible under the name, not shadowed there |
| ExportLaws.ExportVisibility | src/org/armedbear/lisp/Package.java:613-615 | after the name moves to the external table, a using package that saw nothing or the symbol itself sees the symbol |
| ExportLaws.UnblockedUser | src/org/armedbear/lisp/Package.java:597-609 | a using package the corrected rule lets through sees the exported symbol, or keeps its own shadowing symbol |
| PackageWorld.World.Unexport | src/org/armedbear/lisp/Package.java:628-641 | computes `UnexportStep` and keeps the invariant |
| SymbolLaws.UnexportMeaning | src/org/armedbear/lisp/Package.java:628-641 | an external symbol becomes INTERNAL; an only-internal or inherited one is left alone; an error exactly when the symbol is neither external here nor accessible, and then nothing changes |
| SymbolLaws.ExportUnexportRoundTrip | src/org/armedbear/lisp/Package.java:562-641 | exporting an internal symbol with the as-written export and unexporting it restores the store |
| SymbolLaws.ExportAtomicUnexportRoundTrip | src/org/armedbear/lisp/Package.java:562-641 | the same round trip through the corrected, all-or-nothing export |
| PackageWorld.World.ImportSymbol | src/org/armedbear/lisp/Package.java:539-555 | computes the as-written `ImportStep`; the invariant is kept when the name was not already external |
| SymbolLaws.ImportBreaksDisjointness | src/org/armedbear/lisp/Package.java:539-555 | importing a symbol that is external here passes and leaves its name in both tables, breaking the invariant |
| SymbolLaws.ImportAgreement | src/org/armedbear/lisp/Package.java:539-555 | for a name not external here, as-written and corrected import are the same step |
| PackageWorld.World.ImportSymbolChecked | src/org/armedbear/lisp/Package.java:539-555 | computes `ImportCheckedStep` and keeps the invariant |
| SymbolLaws.ImportCheckedMeaning | src/org/armedbear/lisp/Package.java:539-555 | a name conflict exactly when a different symbol is accessible under the name, and then nothing changes; otherwise the symbol is stored here and accessible, and it gets p as home only if it had none |
| SymbolLaws.ImportCheckedIdempotent | src/org/armedbear/lisp/Package.java:539-555 | importing the same symbol again passes and changes nothing |
| PackageWorld.World.Shadow | src/org/armedbear/lisp/Package.java:643-665 | computes `ShadowStep` and keeps the invariant |
| SymbolLaws.ShadowMeaning | src/org/armedbear/lisp/Package.java:643-665 | the shadowing symbol is stored here and is what the name resolves to, never inherited, so no used package can clash on the name; an existing external or internal symbol is reused unchanged; otherwise a fresh symbol homed here is created |
| SymbolLaws.ShadowIdempotent | src/org/armedbear/lisp/Package.java:643-665 | shadowing the same name again changes nothing |
| PackageWorld.World.FindAmbiguity | src/org/armedbear/lisp/Package.java:467-494 | the scan reports exactly when two used packages export different symbols under the name |
| PackageWorld.World.CanUnintern | src/org/armedbear/lisp/Package.java:452-502 | equals `Operations.CanUnintern` on the current store |
| SymbolLaws.AmbiguousMeans | src/org/armedbear/lisp/Package.java:470-493 | ambiguity means that two distinct symbols are exported under the name through the use-list |
| SymbolLaws.CanUninternMeaning | src/org/armedbear/lisp/Package.java:452-502 | an unintern conflict exactly when s is shadowing and the used packages export two distinct symbols under its name; true exactly when s is stored here under its name and there is no such conflict |
| PackageWorld.World.Unintern | src/org/armedbear/lisp/Package.java:441-514 | answers as canUnintern did, computes `UninternStore`, and keeps the invariant |
| SymbolLaws.UninternMeaning | src/org/armedbear/lisp/Package.java:441-514 | when canUnintern says true, the name leaves all three tables, the name can then only be inherited, s loses p as home, and no other package changes; otherwise nothing changes |
| SymbolLaws.UninternUndoesIntern | src/org/armedbear/lisp/Package.java:441-514 | uninterning a freshly interned symbol restores every package and leaves the symbol homeless |
| SymbolLaws.CheckExistingFind | src/org/armedbear/lisp/Package.java:667-678 | against the internal table, the check accepts s exactly when find-symbol says s is INTERNAL, and refuses it exactly when another symbol of that name is INTERNAL |
| PackageWorld.World.ShadowingImport | src/org/armedbear/lisp/Package.java:680-705 | computes `ShadowingImportStep` and keeps the invariant |
| PackageWorld.World.DropPresent | src/org/armedbear/lisp/Package.java:689-693 | the other symbol present under the name leaves the shadowing table and is uninterned: the package is `Unstore` of `Unshadowing`, t is released from its home, and the invariant is kept |
| SymbolLaws.ShadowingImportMeaning | src/org/armedbear/lisp/Package.java:680-705 | s becomes the shadowing symbol, stored here and accessible; a different symbol previously stored under the name is gone and released from its home; other packages are unchanged |
| SymbolLaws.ShadowingImportIdempotent | src/org/armedbear/lisp/Package.java:680-705 | a second shadowing-import of the same symbol changes nothing |
| PackageWorld.World.FindUseConflict | src/org/armedbear/lisp/Package.java:712-727 | the scan reports exactly when some external symbol of q clashes with a different, unshadowed symbol accessible in p |
| PackageWorld.World.UsePackage | src/org/armedbear/lisp/Package.java:710-737 | computes `UseStep` and keeps the invariant |
| UseLaws.UseMeaning | src/org/armedbear/lisp/Package.java:710-737 | refused exactly when q is not yet used and a clash exists, and then nothing changes; otherwise q is on the use-list; no other use edge changes; the invariant is kept |
| UseLaws.UseNoConflict | src/org/armedbear/lisp/Package.java:710-737 | after a new use, each external symbol of q is what its name resolves to in p, unless p shadows the name |
| UseLaws.UseUnuseRoundTrip | src/org/armedbear/lisp/Package.java:710-759 | using a new package and then unusing it restores the store |
| PackageWorld.World.UnusePackage | src/org/armedbear/lisp/Package.java:739-759 | the loop rebuilds the use-list without q, keeping order; computes `UnuseStore` and keeps the invariant |
| PackageWorld.Rebuilt | src/org/armedbear/lisp/Package.java:745-751 | the copy loop yields the use-list without q, in the old order |
| UseLaws.UnuseLists | src/org/armedbear/lisp/Package.java:739-759 | when q is used, p's use-list becomes the old one `Without` q and q's used-by list the old one `Without` p, as lists; every other list, every table and every deleted flag is unchanged |
| PackageWorld.World.UnuseUsed | src/org/armedbear/lisp/Package.java:739-759 | the same list-by-list statement for the method `unusePackage` on a used q; the invariant is kept |
| UseLaws.UnuseMeaning | src/org/armedbear/lisp/Package.java:739-759 | q leaves p's use-list and p leaves q's used-by list; no other use edge and no table changes; the invariant is kept |
| PackageWorld.World.UnuseHead | src/org/armedbear/lisp/Package.java:145-147 | one turn of the loop: p's use-list loses its head, and every used-by list stays the old list, or the old one `Without` p once p has left it |
| PackageWorld.World.UnuseAll | src/org/armedbear/lisp/Package.java:142-149 | p's use-list ends empty; every other use-list is unchanged, as a list; every used-by list is the old one `Without` p; all tables are unchanged |
| PackageWorld.World.DropUser | src/org/armedbear/lisp/Package.java:153-155 | one turn of the loop: p's used-by list gets shorter, and every other use-list stays the old list, or the old one `Without` p once p has left it |
| PackageWorld.World.DropUsers | src/org/armedbear/lisp/Package.java:151-156 | p's used-by list ends empty; every other use-list is the old one `Without` p; every other used-by list is unchanged, as a list; all tables are unchanged |
| PackageWorld.World.Delete | src/org/armedbear/lisp/Package.java:140-169 | true on the first call and false, changing nothing, afterwards; on the first call p ends deleted with both lists empty, no package uses p or is used by it, every other package's use-list and used-by list is the old one `Without` p, in order, and every table is unchanged |
| Findings.ImportCounterexample | src/org/armedbear/lisp/Package.java:539-555 | on a valid one-package store, importing an external symbol leaves its name in both tables; the corrected import changes nothing |
| Findings.ExportCounterexample | src/org/armedbear/lisp/Package.java:576-611 | on a valid store where a user of P has since shadowed the name, re-exporting a symbol homed elsewhere fails with a conflict and leaves its name in both tables; the corrected export passes unchanged |
| Findings.ExcuseCounterexample | src/org/armedbear/lisp/Package.java:594-611 | on a valid store where the only using package shadows the name, the as-written export refuses; the corrected export passes, and the user keeps its own symbol |

## Left out

- The package registry, nicknames, `rename`, `symbol.deletePackage()` and the nickname loop of `delete`: their state lives inside `Symbol` and `Packages`, which are not part of this model. `Delete` stops after the use-list part and the deleted flag.
- PackageWorld.World.NewSymbol: models `new Symbol(name)`, a homeless symbol with the next id. Symbol.java is not part of this model. The constructors' naming of the package through `Symbol.TOP_LEVEL_PACKAGES` belongs to the registry, which is left out above.
- `getAccessibleName`: its own code marks it as not working.
- Local-nickname stubs, `getLocalPackageNicknames`, `initNicknames`, and the NIL bootstrap `addSymbol(Symbol)`: they are bootstrap code or stubs.
- `addInternalSymbol` and `addExternalSymbol`: these unchecked helpers do not belong to the named operations.
- Concurrency: `synchronized`, `ConcurrentHashMap`, and the unlocked cross-package scans of export and use-package. Every operation is one sequential step.
- Multiple values (`LispThread.setValues`): these become a pair or a `Found` value.
- Printing, serialization, property lists and the Lisp-list enumeration helpers: none of them changes the tables.
- Overloads on `SimpleString` and hashes: these convert to the same `String` lookups.
- Operations.ExportStep: the second accessibility lookup at Package.java:580 always finds the symbol again and is not modelled. The final not-accessible error at 620-625 cannot be reached under the invariant, and there the step passes unchanged.
- Operations.ShadowStep: the early return at Package.java:660 cannot be reached, because a name that is in the shadowing table is stored locally.
- PackageWorld.World.FindUseConflict: visits the external names in an unspecified order rather than the table's iteration order. Only whether a conflict exists is modelled, not which symbol the error message would name.
- PackageWorld.World.UnusePackage: builds the new list by appending, where the source pushes and then reverses; the resulting list is the same.

## Findings

| source | as written | input that shows it | evidently intended | confidence | as-written member | corrected member |
|---|---|---|---|---|---|---|
| src/org/armedbear/lisp/Package.java:549-551 | importSymbol always puts the symbol into the internal table | a package whose external table already holds the symbol it imports (`Findings.ExternalOnly`) | a symbol already present is left where it is, keeping internal and external disjoint (the comment at lines 50-53) | not executed | Operations.ImportStep, SymbolLaws.ImportBreaksDisjointness, Findings.ImportCounterexample | Operations.ImportCheckedStep, SymbolLaws.ImportCheckedMeaning, SymbolLaws.ImportCheckedIdempotent |
| src/org/armedbear/lisp/Package.java:576-611 | export stores a symbol homed elsewhere in the internal table before the conflict scan, and a conflict leaves it there | Q interns and exports X; P uses Q and exports X; U uses P and then shadows X; P exports X again (`Findings.ReExport`) | a refused export changes nothing, and exporting an already external symbol does nothing | not executed | Operations.ExportStep, ExportLaws.ExportFails, Findings.ExportCounterexample, SymbolLaws.InternAndExportMeaning | Operations.ExportAtomicStep, ExportLaws.ExportAtomicFailUnchanged, ExportLaws.ExportAtomicPasses, SymbolLaws.InternAndExportAtomicMeaning |
| src/org/armedbear/lisp/Package.java:598 | a conflict is excused when the exporting package's shadowing table maps the name to the user's symbol, which under the invariant never happens | the only user of P shadows the name with its own symbol (`Findings.ShadowedUser`) | the conflict is excused when the using package shadows the name | not executed | ExportLaws.ExporterExcuseDead, Findings.ExcuseCounterexample | Operations.ExportAtomicStep, ExportLaws.ExportAtomicConflict, ExportLaws.UnblockedUser |
