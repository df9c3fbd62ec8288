# Organizational units of terraform-provider-adldap, in Dafny

This project models the organizational-unit (OU) core of the Terraform
provider for Active Directory over LDAP:

- `createOU` creates an OU entry below a configured search base, and
  optionally its missing parents first;
- `deleteOU` deletes an OU entry, and succeeds without doing anything when
  the entry is absent;
- `ouExists` asks the directory whether exactly one OU entry has a given DN;
- the DN path arithmetic behind them: the parent of a DN
  (`getParentObject`), the containment test against the search base, and
  the value of the leaf `OU=` component (`ouRegexp`).

It has three modules, one file each:

- `dn_path.dfy` (`DnPath`): the four regular expressions (lines 14, 116,
  131 and 182) as total string functions. The lemmas say exactly which DNs each one accepts and what it
  extracts.
- `ou_spec.dfy` (`OuSpec`): the directory is a sequence of entries. Each
  entry has a DN and an `ou` naming value. `CreateOutcome` and
  `DeleteOutcome` say, as functions of that sequence, what a call ends with
  and which entries it adds or removes. The lemmas are the guarantees:
  - only the target and missing ancestors inside the base are added;
  - parents are added before their children, each right before its child;
  - the target is added exactly when the call succeeds;
  - every refusal happens before the first write;
  - a second create is refused, and a retry never re-adds anything;
  - deleting the target after a successful create removes exactly the
    target and keeps any parents the create added; after a successful
    delete, a second delete succeeds and changes nothing.
- `ou_directory.dfy` (`OuDirectory`): a `Directory` object, fixed to one
  search base, whose `entries` field the add and delete requests change in
  place. It has the methods
  `OuExists`, `CreateOu` (recursive, like `createOU`) and `DeleteOu`. Each
  method is proved to end with the status and the entries that the
  `OuSpec` functions give, so every `OuSpec` lemma holds of the methods.

The LDAP connection is reduced to two things:

- the entries the existence search can see;
- `faults`, the set of requests (search, add or delete, each for one DN)
  that the server answers with an error.

One search that finds several entries for a DN is represented by the same
DN occurring several times in `entries`.

Where the source stops the process, the model returns an error instead:

- `log.Fatal` when the parent search fails (lines 136-139) returns that
  search's error;
- the panic of `ouRegexp.FindStringSubmatch(ou)[1]` on a leaf that is not
  an `OU=` component (line 153) returns the `NotAnOu` error.

In both cases nothing more is sent to the server, as in the source.

The containment test of line 116, the pattern `.*, *<base>$`, has two
consequences worth stating:

- The DN equal to the base is refused, because the pattern needs a comma
  before the base (`BaseIsNotWithinItself`).
- The text before that comma may be empty, so `,DC=corp` lies within
  `DC=corp` (`WithinBaseOfSplit`).

## Model

| member | source | states |
|---|---|---|
| DnPath.NextComma | internal/provider/resource_organizational_unit.go:182 | The `[^,]+` scan of the parent pattern. It stops at the first comma at or after the start, or at the end when there is none, and no comma lies before it. |
| DnPath.SkipSpaces | internal/provider/resource_organizational_unit.go:182 | The greedy ` *` after the comma. It stops at the first non-space character, or at the end, and only spaces lie before it. |
| DnPath.SkipSpacesBack | internal/provider/resource_organizational_unit.go:116 | The backward ` *` scan of the containment pattern. It stops just after the last non-space character before the start position, or at the start of the DN, and only spaces lie between. |
| DnPath.ParentOf | internal/provider/resource_organizational_unit.go:177-189 | The parent is a strictly shorter suffix of the DN. A DN with no comma has parent "", the sentinel the source returns when the pattern does not match. |
| DnPath.ParentOfSplit | internal/provider/resource_organizational_unit.go:182-187 | Inverse of building a DN. For a non-empty first component `c` without a comma, and a `rest` that does not start with a space, `ParentOf(c + "," + spaces + rest)` is exactly `rest`: one component and the spaces after its comma are dropped. |
| DnPath.ParentOfLeadingComma | internal/provider/resource_organizational_unit.go:182-186 | A DN that starts with a comma has no first component, so the pattern fails and the parent is "". |
| DnPath.IsWithinBase | internal/provider/resource_organizational_unit.go:116 | An accepted DN is longer than the base and ends with it. |
| DnPath.IsWithinBaseMeans | internal/provider/resource_organizational_unit.go:116 | The containment test accepts exactly the DNs that have a comma, then only spaces, then the base at the end (both directions). |
| DnPath.WithinBaseOfSplit | internal/provider/resource_organizational_unit.go:116 | Every `prefix + "," + spaces + base` passes the containment test, including an empty prefix. |
| DnPath.BaseIsNotWithinItself | internal/provider/resource_organizational_unit.go:116-118 | The search base itself is refused as outside the base. |
| DnPath.ParentStaysWithinBase | internal/provider/resource_organizational_unit.go:128-142 | One step up from a DN inside the base lands inside the base or on the base itself. This holds when the DN starts with a component and the base does not start with a space, so the parent walk of createOU never leaves the base. |
| DnPath.HasOuPrefix | internal/provider/resource_organizational_unit.go:131 | The case-insensitive `^ou=` test on the DN, as a predicate. Its meaning is stated by `HasOuPrefixMeans`. |
| DnPath.HasOuPrefixMeans | internal/provider/resource_organizational_unit.go:131 | The test holds exactly when the DN starts with `ou=`, `oU=`, `Ou=` or `OU=`. |
| DnPath.LeafValue | internal/provider/resource_organizational_unit.go:14 | The value exists exactly when the DN starts with `OU=` in any case followed by a non-comma. It is then the non-empty, comma-free text up to the first comma or the end. |
| DnPath.LeafValueOfComponent | internal/provider/resource_organizational_unit.go:153 | Inverse of writing a leaf. Writing `OU=value` (any case of the key) before a comma or the end and reading the leaf value back gives `value`. |
| OuSpec.Count | internal/provider/resource_organizational_unit.go:103-112 | The number of search results is at most the number of entries. It is zero exactly when no entry has that DN. |
| OuSpec.Without | internal/provider/resource_organizational_unit.go:169-170 | The delete request removes exactly the entries with that DN: the remaining length drops by their number, membership is "was there and has another DN", and every other DN keeps its number of entries, so its existence answer is unchanged. |
| OuSpec.ExistsAnswer | internal/provider/resource_organizational_unit.go:99-113 | The answer of ouExists on a directory. It is true exactly when the search succeeds with one result, and false exactly when it succeeds with none. With more results it is the "too many results" error. |
| OuSpec.CreateOutcome | internal/provider/resource_organizational_unit.go:115-161 | createOU as a function of the entries and the refused requests, branch by branch: the status it ends with and the entries it adds, in order. Its properties are the create lemmas below. |
| OuSpec.ParentReady | internal/provider/resource_organizational_unit.go:128-151 | The parent check of createOU as a function: no check when the parent is the base or the DN is not an `OU=` component, otherwise the parent search and, for a missing parent, its creation or the missing-parent error. |
| OuSpec.AncestorIsShorter | internal/provider/resource_organizational_unit.go:128-145 | A proper ancestor reached by repeated parent steps is shorter, so the recursion of createOU ends. |
| OuSpec.CreateAddsOnlyMissingAncestors | internal/provider/resource_organizational_unit.go:115-161 | Every entry createOU adds is the target or one of its ancestors. Each is inside the base, was absent when the call began, and is named by the value of its own leaf `OU=` component. |
| OuSpec.ParentReadyAddsOnlyAncestors | internal/provider/resource_organizational_unit.go:128-151 | The same for what the parent check adds, for the DN being checked. |
| OuSpec.CreateAddsTargetOnSuccess | internal/provider/resource_organizational_unit.go:153-160 | The target is added exactly once if the call succeeds and not at all if it fails. No added DN is longer than the target. |
| OuSpec.ParentReadyAddsShorter | internal/provider/resource_organizational_unit.go:128-151 | Everything the parent check adds has a DN strictly shorter than the DN being checked. |
| OuSpec.CreateEndsWithTarget | internal/provider/resource_organizational_unit.go:153-160 | The call succeeds if and only if something was added and the last added entry is the target. |
| OuSpec.CreateAddsTopDown | internal/provider/resource_organizational_unit.go:140-158 | Added entries come in order of strictly increasing DN length, so every parent is added before its children. |
| OuSpec.ParentReadyAddsTopDown | internal/provider/resource_organizational_unit.go:128-151 | The same order for what the parent check adds. |
| OuSpec.CreateAddsChained | internal/provider/resource_organizational_unit.go:136-158 | Every added entry after the first is a child of the entry added just before it. So no missing ancestor is skipped, and each parent is present when its child is added. |
| OuSpec.ParentReadyAddsChained | internal/provider/resource_organizational_unit.go:136-145 | The same chain property for what the parent check adds. |
| OuSpec.ParentReadyEndsWithParent | internal/provider/resource_organizational_unit.go:140-145 | When the parent check succeeds after adding something, the last entry it added is the parent of the DN being checked. |
| OuSpec.CreateStartsAnchored | internal/provider/resource_organizational_unit.go:128-151 | The first added entry hangs below something that needs no creating: the base, an entry that already existed, or it is not an `OU=` component. |
| OuSpec.ParentReadyStartsAnchored | internal/provider/resource_organizational_unit.go:128-151 | The same for the parent check. When the check succeeds without adding anything, the checked DN itself is anchored that way. |
| OuSpec.CreateChecksBeforeWriting | internal/provider/resource_organizational_unit.go:115-161 | Every error other than a non-OU leaf or a refused add leaves the directory unchanged. "Already exists" is only about the target, when the search found it. "Missing parent" is only about the target, and only when parents are not to be created. |
| OuSpec.ParentReadyChecksBeforeWriting | internal/provider/resource_organizational_unit.go:128-151 | The parent check fails before writing except at the write stage of a parent's creation. It never reports "already exists". A missing parent is reported for the checked DN only when parents are not to be created. |
| OuSpec.CreateRefusals | internal/provider/resource_organizational_unit.go:116-147 | Each refusal adds nothing: outside the base, already existing, too many search results, and a missing parent without createParents. |
| OuSpec.CreateNeedsAbsentTarget | internal/provider/resource_organizational_unit.go:116-126 | A successful create had a DN inside the base that the existence check reported absent. |
| OuSpec.CreateThenExists | internal/provider/resource_organizational_unit.go:120-160 | After a success, ouExists finds the target. After a failure, ouExists answers for the target as it did before. |
| OuSpec.CreateTwiceIsRefused | internal/provider/resource_organizational_unit.go:120-126 | Creating the same DN again after a success is refused as "already exists" with nothing added, whatever the createParents flag. |
| OuSpec.RetryAddsNothingTwice | internal/provider/resource_organizational_unit.go:120-151 | A retry adds only DNs that neither the directory nor the first attempt held. This holds after any outcome of the first attempt, and whatever the server refuses during the retry: a retry after a transient fault resumes below the ancestors already created. |
| OuSpec.DeleteOutcome | internal/provider/resource_organizational_unit.go:163-175 | deleteOU as a function of the entries and the refused requests. A failure leaves the entries unchanged, and after a success no entry has the DN. |
| OuSpec.DeleteRemovesOnlyTarget | internal/provider/resource_organizational_unit.go:163-175 | A successful delete removes the single entry with that DN and nothing else: every other DN keeps its number of entries. A failed one changes nothing. An absent DN succeeds with nothing to do. |
| OuSpec.DeleteIsIdempotent | internal/provider/resource_organizational_unit.go:163-175 | After a successful delete, deleting again succeeds and changes nothing. |
| OuSpec.DeleteLastAdded | internal/provider/resource_organizational_unit.go:168-172 | Deleting the DN of an entry appended to a directory that had no other entry with it gives back the directory without that entry. |
| OuSpec.DeleteUndoesCreate | internal/provider/resource_organizational_unit.go:163-175 | After a successful createOU, deleteOU of the same DN succeeds when the server accepts the delete. It removes exactly the target and keeps any parents the creation added. |
| OuSpec.OuUnderFacts | internal/provider/resource_organizational_unit.go:177-189 | `OU=value,rest` has parent `rest`, leaf value `value` and an `OU=` prefix. |
| OuSpec.TwoLevelsWithinBase | internal/provider/resource_organizational_unit.go:116 | `OU=p,<base>` and `OU=c,OU=p,<base>` both pass the containment test. |
| OuSpec.CreateDirectlyUnderBase | internal/provider/resource_organizational_unit.go:128-158 | A missing OU whose parent is the base is created by a single add, with its leaf value as naming value, whatever the createParents flag. |
| OuSpec.ParentCreatedFirst | internal/provider/resource_organizational_unit.go:136-145 | The parent check of a child creates the child's missing parent when that parent sits directly under the base. |
| OuSpec.CreateAddsAfterParentCheck | internal/provider/resource_organizational_unit.go:153-160 | When every check passes and the add is accepted, the target is added after whatever the parent check added. |
| OuSpec.CreateBelowMissingParent | internal/provider/resource_organizational_unit.go:140-145 | With createParents, a child whose parent is missing directly under the base adds the parent and then the child, in that order. |
| OuSpec.CreateBelowMissingParentRefused | internal/provider/resource_organizational_unit.go:146-147 | Without createParents the same request fails as a missing parent and adds nothing. |
| OuSpec.CreateUnderMissingParent | internal/provider/resource_organizational_unit.go:128-158 | Both outcomes for `OU=c,OU=p,<base>` with `OU=p,<base>` missing: the two-entry creation, and the missing-parent refusal. |
| OuSpec.CreateOutsideBaseExample | internal/provider/resource_organizational_unit.go:116-118 | `OU=X,DC=evil` is refused for base `DC=corp,DC=com` before the directory is consulted. |
| OuDirectory.Directory.Search | internal/provider/resource_organizational_unit.go:103-106 | The existence search returns the number of entries with the DN, or the server's error when that search is refused. |
| OuDirectory.Directory.Add | internal/provider/resource_organizational_unit.go:155-158 | The add request appends the entry, or fails with a transport error and changes nothing. |
| OuDirectory.Directory.Del | internal/provider/resource_organizational_unit.go:169-170 | The delete request removes the entries with the DN, or fails with a transport error and changes nothing. |
| OuDirectory.Directory.OuExists | internal/provider/resource_organizational_unit.go:99-113 | The answer is true if and only if the search succeeds with exactly one result, and false if and only if it succeeds with none. Any other answer is an error, and "too many results" when the search itself succeeded. |
| OuDirectory.Directory.CreateOu | internal/provider/resource_organizational_unit.go:115-161 | The returned status and the new entries (the old entries followed by the added ones) are those of `CreateOutcome` on the entries at the call. So all the `OuSpec` create lemmas hold of it. |
| OuDirectory.Directory.DeleteOu | internal/provider/resource_organizational_unit.go:163-175 | The returned status and the new entries are those of `DeleteOutcome`, and after a success no entry has the DN. |

## Left out

- The Terraform resource glue in `resource_organizational_unit.go`
  (lines 16-97): schema, create, read and delete callbacks, and diagnostics.
- `ldapSearch` and the go-ldap client are not part of this model. A search
  is its number of results or an error, and an add or delete changes the
  entries or fails. Connection, authentication and protocol errors are one
  `Transport` error naming the refused request.
- The search scope and the filter. `entries` are the OU entries the subtree
  search below the search base can see. The server's own DN matching
  (case-insensitive, with normalisation) is replaced by exact string
  equality. Special characters in the DN are not escaped in the filter, and
  that is not modelled either.
- The search base as a regular expression. Line 116 interpolates the base
  into a pattern, but `IsWithinBase` reads it literally. A base with
  pattern metacharacters (`.`, `*`, `(`, …) or an invalid pattern behaves
  differently in the source.
- DnPath.ParentOf: does not model line breaks. In Go's pattern `.` does
  not match a line feed, so the source returns "" when the text after the
  first comma contains one. The model treats a line feed like any other
  character.
- DnPath.LeafValue: does not model line breaks either. The source panics
  when the text from the first comma on contains a line feed. The
  containment test is not affected, because its match may start anywhere.
- RFC 4514 escaping (an escaped comma inside a value) and multi-valued
  components are not handled, neither by the source nor by the model.
- `getParentObject("")` exits the process in the source. `DnPath.ParentOf`
  requires a non-empty DN, and createOU only calls it on DNs longer than the
  base.
- The `log.Fatal` after a failing `(?i)^ou=` match (lines 132-134) cannot
  happen, because that pattern is a valid constant. It has no counterpart.
- The process exits at lines 137-138 and 153 are modelled as returned
  errors, as described above.
- `faults` is fixed for a `Directory`: during one session a request the
  server refused once is always refused, and one it accepted is always
  accepted. `CreateTwiceIsRefused` and `DeleteIsIdempotent` are stated
  under one fault set. `RetryAddsNothingTwice` takes a second fault set
  for the retry, so it covers a fault that has cleared.
- Concurrency: another client changing the directory between the search
  and the add is not modelled. Every search of one createOU call sees the
  entries as they were when the call began, which holds in the source
  because all searches come before the first add.
