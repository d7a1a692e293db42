# qlts catalogue: a verified model of its services, guards and forms

qlts is an asset-catalogue web application. A TypeScript/Express backend keeps six tables, served through paginated, filtered listings:

- asset groups
- asset flows
- asset types
- products
- partners
- units

The backend also handles:

- suggested codes for new rows
- an Excel import of asset groups
- dashboard counts
- cookie-based JWT sessions behind role guards

A React front end shows the tables in a shared `DataTable` component and derives read and write flags from the signed-in user's role. Its login and registration pages validate their forms before they call the backend.

This project models that core in Dafny:

- **Tables.** Each table is a sequence of rows in id order, with a soft-delete stamp (`deletedAt`).
- **Services.** Each service operation is a pure specification function over the tables. It returns either the saved row or the exception the service throws. The exceptions are `Common.HttpError`, with the status codes of the backend's exception classes.
- **Stateful classes.** A class per service holds the tables and the id counter. Its methods are proved equal to the specification functions and keep the table invariants:
  - ids ascend;
  - the codes and names of live rows are unique;
  - references between tables point at live rows.
- **Import.** The asset-group import is a loop over the sheet. Its invariant ties the state so far to a fold of one-row outcomes over the rows that remain.
- **Authentication.**
  - Login, register and logout act on a user table and a refresh-token table.
  - The authentication middleware is a decision procedure over the outcomes of token verification.
  - The role guard is a predicate.
  - bcrypt and JWT signing and verification are function parameters.
- **Front end.** The front-end helpers are functions. Each page's state is a class whose methods are the page's handlers.

Shared pieces:

| Module | What it models |
|---|---|
| `Common` | Option, the exception taxonomy, statuses |
| `Text` | trimming, substring search, number formatting and parsing, lexicographic order |
| `Tables` | rows, liveness, uniqueness, soft delete |
| `Sorting` | the `ORDER BY` of a listing, as an insertion sort proved sorted and a permutation |
| `Paging` | the offset/limit window of the base service |
| `CodeGen` | the three code generators |
| `Catalog` | create, update, listing and active list, shared by the code-and-name tables |

## Model

| member | source | states |
|---|---|---|
| Common.HttpError.StatusCode | backend_qlts/src/exceptions/NotFoundException.ts:5 | Every exception the services throw is a 4xx. It is 400 exactly for Existed, CannotDelete and ConfirmPasswordNotMatch; the others are 404, 422, 401 and 403. |
| Tables.FindLive | backend_qlts/src/services/AssetGroupService.ts:110-113 | `findOneBy({ id })` finds a live row with that id, or reports that none exists. |
| Tables.LiveCodes | backend_qlts/src/services/AssetGroupService.ts:23-27 | The codes the generator's query can see are exactly the codes of live rows. |
| Tables.AppendWellFormed | backend_qlts/src/services/AssetGroupService.ts:80-81 | Saving a new row under the next id keeps ids ascending and below the counter. |
| Tables.AppendUnique | backend_qlts/src/services/AssetGroupService.ts:62-81 | A row whose code and name passed both uniqueness checks keeps the live codes and names unique. |
| Tables.ReplaceUnique | backend_qlts/src/services/AssetGroupService.ts:129-144 | An updated row whose checks excluded only its own id keeps the live codes and names unique. |
| Tables.SoftDeletePreserves | backend_qlts/src/services/AssetGroupService.ts:160-165 | A soft delete keeps every row and id. It retires exactly the deleted row, and the invariants still hold. |
| Sorting.SortByCorrect | backend_qlts/src/services/AssetGroupService.ts:195-201 | The listing order is sorted by the chosen column and direction, and is a permutation of its input. |
| Sorting.SortByMembers | backend_qlts/src/services/AssetGroupService.ts:195-201 | Ordering introduces no row that was not selected. |
| Sorting.SortedIsFixpoint | backend_qlts/src/services/AssetGroupService.ts:195-201 | Ordering rows that are already in order leaves them as they are; an id-ordered table listed by id ASC is unchanged. |
| Sorting.SortedSlice | backend_qlts/src/services/BaseService.ts:14-19 | A page cut from an ordered listing is itself ordered. |
| Paging.Select | backend_qlts/src/services/BaseService.ts:14-15 | The `where` filter keeps exactly the rows that match it, taken from the table and no more of them. |
| Paging.SelectKeepsOrder | backend_qlts/src/services/BaseService.ts:14-16 | Filtering keeps the relative order of the rows. |
| Paging.Window | backend_qlts/src/services/BaseService.ts:17-18 | The skip/take window always lies inside the rows. |
| Paging.Skip | backend_qlts/src/services/BaseService.ts:17 | From page 1 on, with a non-negative page size, the offset is not negative. |
| Paging.SkipProduct | backend_qlts/src/services/BaseService.ts:17 | The offset is exactly (page-1)*pageSize, for every page including those below 1. |
| Paging.Paginate | backend_qlts/src/services/BaseService.ts:7-21 | Page and page size default to 1 and 10 and are echoed back. The total counts every matching row. The data holds at most pageSize rows, and is exactly the window at skip (page-1)*pageSize. |
| Paging.PageIsSlice | backend_qlts/src/services/BaseService.ts:14-19 | The returned data is a contiguous slice of the ordered rows. |
| Paging.PageMembers | backend_qlts/src/services/BaseService.ts:14-19 | Every returned row is one of the ordered rows. |
| Paging.RowOnPage | backend_qlts/src/services/BaseService.ts:17-18 | Row i of the ordering appears on page i / pageSize + 1, at position i mod pageSize. |
| Paging.SecondPageOfFifteen | backend_qlts/src/services/BaseService.ts:8-19 | With the default page size, page 2 of 15 rows holds the last five. |
| CodeGen.NextPatternCode | backend_qlts/src/services/AssetGroupService.ts:22-36 | The suggestion has at least three characters after the prefix: `padStart` pads and never truncates. Its number is stated by PatternRestart and PatternSuccessor. |
| CodeGen.NextTypeCode | backend_qlts/src/services/AssetTypeService.ts:227-239 | The suggestion has at least six characters, LTS and three digits or more. |
| CodeGen.NextProductCode | backend_qlts/src/services/ProductService.ts:354-367 | The suggestion has at least ten characters, HHDV and six digits or more. |
| CodeGen.SuggestionPrefixes | backend_qlts/src/services/AssetGroupService.ts:35 | Every suggestion starts with its generator's prefix: NTS or DTS, LTS, HHDV. |
| CodeGen.TopCodeIsGreatest | backend_qlts/src/services/AssetGroupService.ts:23-27 | The top code is absent exactly when no code has the prefix. Otherwise it has the prefix, is one of the codes, and is lexicographically at least every prefixed code. |
| CodeGen.FormatRoundTrip | backend_qlts/src/services/AssetGroupService.ts:30-35 | Reading back a formatted code with `^NTS(\d+)$` gives the number that was formatted. |
| CodeGen.FormatLength | backend_qlts/src/services/AssetGroupService.ts:35 | Padding gives exactly prefix plus width characters when the number fits. A larger number is never truncated: it is longer. |
| CodeGen.PatternRestart | backend_qlts/src/services/AssetGroupService.ts:28-35 | With no prefixed code, or a top code that fails the pattern, the suggestion is prefix + "001". |
| CodeGen.PatternSuccessor | backend_qlts/src/services/AssetGroupService.ts:28-35 | A top code numbered k yields a code numbered k + 1, three digits wide while k + 1 < 1000. |
| CodeGen.NextAfterNts005 | backend_qlts/src/services/AssetGroupService.ts:22-36 | After NTS002 and NTS005 the suggestion is NTS006; other prefixes are ignored. |
| CodeGen.NextAfterNts999 | backend_qlts/src/services/AssetGroupService.ts:35 | After NTS999 the suggestion is NTS1000, seven characters long. |
| CodeGen.LexicographicGap | backend_qlts/src/services/AssetGroupService.ts:26-32 | With NTS999 and NTS1000 present, the lexicographic top is NTS999, so the suggestion is NTS1000, a code already taken. |
| CodeGen.TypeCodeNumbered | backend_qlts/src/services/AssetTypeService.ts:227-239 | A six-character top LTS code with a numeric suffix yields LTS + (suffix + 1), padded to 3. |
| CodeGen.TypeCodeRestart | backend_qlts/src/services/AssetTypeService.ts:229-236 | No LTS code, or a top one not exactly 6 characters long, restarts at LTS001. |
| CodeGen.TypeCodeLenientParse | backend_qlts/src/services/AssetTypeService.ts:233-235 | `parseInt` reads the leading digits: LTS1AB gives LTS002. |
| CodeGen.TypeCodeCollision | backend_qlts/src/services/AssetTypeService.ts:229-237 | A non-numeric top code (LTSABC) restarts at LTS001 even when LTS001 exists. |
| CodeGen.ProductCodeNumbered | backend_qlts/src/services/ProductService.ts:354-367 | An HHDV top code of at least 9 characters with a numeric suffix yields HHDV + (suffix + 1), padded to 6. The result is exactly 10 characters up to 999999. |
| CodeGen.ProductCodeRestart | backend_qlts/src/services/ProductService.ts:356-364 | No HHDV code, or a top one shorter than 9 characters, restarts at HHDV000001. |
| Catalog.ChosenCode | backend_qlts/src/services/AssetGroupService.ts:48-58 | A supplied code is kept. An omitted one is the generator's suggestion over the live codes. |
| Catalog.Create | backend_qlts/src/services/AssetGroupService.ts:44-82 | Create succeeds exactly when the draft is valid and neither the chosen code nor the name is taken. Failures, in order: the code is InvalidateInput when it is supplied and longer than 6 or outside [A-Za-z0-9_/]; the name is InvalidateInput when empty or over 50; then Existed for the code; then Existed for the name. On success the row gets the next id, the chosen code, the name, status (default active) and note. The same code appears in AssetFlowService.ts:42-80. |
| Catalog.CreatePreserves | backend_qlts/src/services/AssetGroupService.ts:62-81 | A successful create keeps the table well formed, with live codes and names unique. |
| Catalog.GeneratedCodeNotRevalidated | backend_qlts/src/services/AssetGroupService.ts:55-58 | A generated code is not checked against the 6-character rule: after NTS999 a group is created with the 7-character NTS1000. |
| Catalog.Update | backend_qlts/src/services/AssetGroupService.ts:106-145 | An unknown id gives NotFound before any validation. The code and name rules are then checked, an empty code being regenerated. Uniqueness excludes the row's own id. On success only the row with that id changes, keeping its id; status and note merge (an absent one keeps the old value). The same code appears in AssetFlowService.ts:104-143. |
| Catalog.UpdatePreserves | backend_qlts/src/services/AssetGroupService.ts:129-144 | A successful update keeps the table well formed and unique. |
| Catalog.UpdateKeepingCodeAndName | backend_qlts/src/services/AssetGroupService.ts:130-136 | Re-saving a live row with its own code and name always succeeds, because the checks exclude its own id. |
| Catalog.Listing | backend_qlts/src/services/AssetGroupService.ts:169-204 | The page echoes the page and page size, 1 and 10 when absent, and its total never exceeds the rows of the table. |
| Catalog.ListingTotal | backend_qlts/src/services/AssetGroupService.ts:169-204 | The listing total counts every live row passing the filters. |
| Catalog.ListingMatches | backend_qlts/src/services/AssetGroupService.ts:181-193 | Every listed row is a live row of the table. Each non-blank filter holds for it: substring for code, name and note, equality for status. |
| Catalog.ListingOrdered | backend_qlts/src/services/AssetGroupService.ts:196-201 | The page is sorted by the requested column and direction (ASC by default), or by id ASC without an orderBy. |
| Catalog.UnfilteredListing | backend_qlts/src/services/AssetGroupService.ts:181-203 | With all filters blank and no orderBy, the listing is the base paginate over the live rows in id order. |
| Catalog.ActiveEntries | backend_qlts/src/services/AssetGroupService.ts:205-211 | The active list is no longer than the table, and empty exactly when no row is live and active. Its contents and order are stated by ActiveEntriesSound, ActiveEntriesComplete and ActiveEntriesByName. |
| Catalog.ActiveEntriesSound | backend_qlts/src/services/AssetGroupService.ts:205-211 | The active list holds only (id, name) pairs of live active rows. |
| Catalog.ActiveEntriesComplete | backend_qlts/src/services/AssetGroupService.ts:205-211 | Every live active row appears in the active list. |
| Catalog.ActiveEntriesByName | backend_qlts/src/services/AssetGroupService.ts:208 | The active list is ordered by name ascending. The same code appears in AssetFlowService.ts:197-203 and PartnerService.ts:165-171. |
| AssetGroups.DeleteGroup | backend_qlts/src/services/AssetGroupService.ts:146-167 | Delete succeeds exactly when the group is live and no asset type references it. Failures are NotFound for an unknown id, then CannotDelete while referenced. |
| AssetGroups.DeleteKeepsTypesAnchored | backend_qlts/src/services/AssetGroupService.ts:152-165 | After a successful soft delete, every live type still points at a live group. |
| AssetGroups.AssetGroupService.CreateAssetGroup | backend_qlts/src/services/AssetGroupService.ts:44-82 | It returns `Catalog.Create` of the old table. It appends exactly the new row on success and changes nothing on failure. |
| AssetGroups.AssetGroupService.UpdateAssetGroup | backend_qlts/src/services/AssetGroupService.ts:106-145 | It returns `Catalog.Update` of the old table and replaces only that row on success. |
| AssetGroups.AssetGroupService.DeleteAssetGroup | backend_qlts/src/services/AssetGroupService.ts:146-167 | It follows `DeleteGroup`: on success it stamps only that row's deletedAt, otherwise it changes nothing. |
| AssetGroups.Normalise | backend_qlts/src/services/AssetGroupService.ts:396-402 | Code, name and note are the trimmed cells. The status is the trimmed cell lower-cased: same length, with no upper-case letter left. |
| AssetGroups.Outcome | backend_qlts/src/services/AssetGroupService.ts:404-467 | A row is skipped exactly when all four cells are blank. Otherwise the first failing rule decides its one error: code, then name, then status, then taken code, then taken name. An inserted row gets the next id and the (possibly generated) code. |
| AssetGroups.Step | backend_qlts/src/services/AssetGroupService.ts:404-467 | One row adds one success or one error, or nothing when it is blank. The table only grows at its end, by one row per success. |
| AssetGroups.StepPreserves | backend_qlts/src/services/AssetGroupService.ts:459-467 | One import row keeps the group table well formed and unique. |
| AssetGroups.Import | backend_qlts/src/services/AssetGroupService.ts:383-468 | Successes plus errors equal the non-blank rows. The old table is a prefix of the new one, which has one more row per success. |
| AssetGroups.ImportPreserves | backend_qlts/src/services/AssetGroupService.ts:394-468 | The whole import keeps the group table well formed and unique. |
| AssetGroups.ApplyCounts | backend_qlts/src/services/AssetGroupService.ts:405-467 | A row's outcome adds one success, or one error, or nothing when the row is skipped. |
| AssetGroups.ImportAccounting | backend_qlts/src/services/AssetGroupService.ts:394-468 | Over the sheet, new successes plus new errors equal the number of non-blank rows. Each success appended exactly one row. |
| AssetGroups.ImportErrorRows | backend_qlts/src/services/AssetGroupService.ts:394-468 | Errors are appended in strictly ascending row order, each tagged with a row number of the sheet. |
| AssetGroups.TakenCodeRejected | backend_qlts/src/services/AssetGroupService.ts:435-445 | A valid row whose code is already live is rejected with the taken-code error. |
| AssetGroups.DuplicateWithinImport | backend_qlts/src/services/AssetGroupService.ts:435-457 | A second row repeating the code of a row inserted earlier in the same import is rejected. |
| AssetGroups.ImportRevalidatesGeneratedCode | backend_qlts/src/services/AssetGroupService.ts:408-414 | Unlike create, the import checks the generated code: after NTS999 a codeless row fails the code rule. |
| AssetGroups.AssetGroupService.CheckRow | backend_qlts/src/services/AssetGroupService.ts:404-457 | It computes the row's outcome against the current table, changing nothing. |
| AssetGroups.AssetGroupService.ImportRow | backend_qlts/src/services/AssetGroupService.ts:395-467 | One loop turn: the new table, counter, success count and errors are `Step` of the old ones. |
| AssetGroups.AssetGroupService.Record | backend_qlts/src/services/AssetGroupService.ts:410-466 | A rejection appends one error on the row's number; an accepted row is appended under the next id and counted as a success; the table stays well formed with unique live codes and names. |
| AssetGroups.InsertedStep | backend_qlts/src/services/AssetGroupService.ts:457-466 | A saved row adds one success, no error, and its code is then live in the table for the rows after it. |
| AssetGroups.RejectedStep | backend_qlts/src/services/AssetGroupService.ts:435-446 | A row whose code is already live, with a valid name and status, adds exactly the existing-code error on its own row number. |
| AssetGroups.AssetGroupService.ImportAssetGroups | backend_qlts/src/services/AssetGroupService.ts:383-470 | The loop from row 3 returns the success count and the errors of `Import` of the old table, and leaves the table in that state. |
| AssetFlows.DeleteFlow | backend_qlts/src/services/AssetFlowService.ts:144-159 | Delete succeeds exactly when the flow is live and no product uses it. Failures are NotFound, then CannotDelete. |
| AssetFlows.DeleteKeepsProductsAnchored | backend_qlts/src/services/AssetFlowService.ts:148-158 | If every live product pointed at a live flow before a successful soft delete, it still does. Product writes do not check the flow id, so nothing establishes that premise. |
| AssetFlows.AssetFlowService.CreateAssetFlow | backend_qlts/src/services/AssetFlowService.ts:42-80 | It returns `Catalog.Create` with the DTS labels and appends exactly the new row on success. |
| AssetFlows.AssetFlowService.UpdateAssetFlow | backend_qlts/src/services/AssetFlowService.ts:104-143 | It returns `Catalog.Update` and replaces only that row on success. |
| AssetFlows.AssetFlowService.DeleteAssetFlow | backend_qlts/src/services/AssetFlowService.ts:144-159 | It follows `DeleteFlow`, soft-deleting only that row. |
| AssetTypes.GroupLookup | backend_qlts/src/services/AssetTypeService.ts:124-130 | The group lookup finds the live group with the given id. With no id, TypeORM drops the condition and any live group is found. |
| AssetTypes.CheckType | backend_qlts/src/services/AssetTypeService.ts:93-130 | The check passes exactly when a supplied code is at most 10 allowed characters and not taken, the name is valid and not taken, and the group exists. Failures in order: code InvalidateInput, code Existed, name InvalidateInput, name Existed, group NotFound. |
| AssetTypes.CreateType | backend_qlts/src/services/AssetTypeService.ts:89-145 | Create succeeds exactly when the check does. The row gets the next id, a generated code when none is supplied, and management type and status defaulting to quantity and active. |
| AssetTypes.CreateTypePreserves | backend_qlts/src/services/AssetTypeService.ts:138-144 | A created type keeps the table well formed, with unique names. If every live type pointed at a live group before, it still does, since the checks found the new type's group. |
| AssetTypes.GeneratedTypeCodeUnchecked | backend_qlts/src/services/AssetTypeService.ts:93-104 | A generated code is never checked for duplicates: with LTS001 and LTSABC present, a new type gets LTS001 again. |
| AssetTypes.UpdateType | backend_qlts/src/services/AssetTypeService.ts:146-211 | Every validation and uniqueness check, excluding its own id, comes before the existence check; only then does an unknown id give NotFound. On success only that row changes, keeping its id. |
| AssetTypes.UpdateValidatesFirst | backend_qlts/src/services/AssetTypeService.ts:151-160 | An invalid code for a missing id reports InvalidateInput, not NotFound. |
| AssetTypes.UpdateTypePreserves | backend_qlts/src/services/AssetTypeService.ts:195-210 | A successful update keeps the table well formed, with unique names. If every live type pointed at a live group before, it still does. |
| AssetTypes.DeleteType | backend_qlts/src/services/AssetTypeService.ts:213-225 | Delete succeeds exactly when the type exists and no product references it. Failures are NotFound, then CannotDelete. |
| AssetTypes.Remove | backend_qlts/src/services/AssetTypeService.ts:224 | A hard delete drops exactly one row and keeps the others in order. |
| AssetTypes.RemovePreserves | backend_qlts/src/services/AssetTypeService.ts:224 | After removal the id is gone and the table stays well formed with unique names. |
| AssetTypes.DeleteKeepsProductsTyped | backend_qlts/src/services/AssetTypeService.ts:215-224 | If every live product's type was present before a successful delete, it still is. Product writes do not check the type id, so nothing establishes that premise. |
| AssetTypes.View | backend_qlts/src/services/AssetTypeService.ts:77-87 | A listed type carries its own fields plus its live group's name and id. |
| AssetTypes.ViewOfLive | backend_qlts/src/services/AssetTypeService.ts:30-43 | Every joined row is the view of a live type of the table, with the name of that type's own group. |
| AssetTypes.TypeListing | backend_qlts/src/services/AssetTypeService.ts:26-87 | The page echoes the request's page and page size, with no defaults, and its total never exceeds the rows of the table. |
| AssetTypes.TypeListingMatches | backend_qlts/src/services/AssetTypeService.ts:44-62 | Every listed view comes from a live type and passes every non-empty filter, which is not trimmed. |
| AssetTypes.TypeListingOrdered | backend_qlts/src/services/AssetTypeService.ts:63-75 | The page is sorted by the requested column, with groupName taken from the join and id ASC by default. The total counts the matching views. |
| AssetTypes.AssetTypeService.Check | backend_qlts/src/services/AssetTypeService.ts:93-130 | It computes `CheckType` against the current table, changing nothing. |
| AssetTypes.AssetTypeService.CreateAssetType | backend_qlts/src/services/AssetTypeService.ts:89-145 | It returns `CreateType` of the old table and appends exactly the new row on success. Types anchored to live groups stay anchored. |
| AssetTypes.AssetTypeService.Save | backend_qlts/src/services/AssetTypeService.ts:138-144 | Saving a checked type appends it under the next id, keeps the table valid and keeps every live type anchored. |
| AssetTypes.AssetTypeService.UpdateAssetType | backend_qlts/src/services/AssetTypeService.ts:146-211 | It returns `UpdateType` and replaces only that row on success. Types anchored to live groups stay anchored. |
| AssetTypes.AssetTypeService.DeleteAssetType | backend_qlts/src/services/AssetTypeService.ts:213-225 | It follows `DeleteType`: the row is removed from the sequence, not stamped. |
| Partners.CodeText | backend_qlts/src/services/PartnerService.ts:45-49 | An absent code is interpolated as "undefined" in the Existed message. |
| Partners.PartnerCreate | backend_qlts/src/services/PartnerService.ts:25-56 | Create succeeds exactly when a supplied code is at most 10 allowed characters and the name is valid, and neither is taken. The code is checked first. No code is ever generated. |
| Partners.PartnerCreatePreserves | backend_qlts/src/services/PartnerService.ts:42-55 | A created partner keeps the table well formed and unique. |
| Partners.MissingCodeMatchesAnyPartner | backend_qlts/src/services/PartnerService.ts:42-47 | Without a code, the lookup drops its condition and matches any live partner, so creation fails with Existed. |
| Partners.PartnerUpdate | backend_qlts/src/services/PartnerService.ts:73-106 | An unknown id gives NotFound first. The code is limited to 6 characters here, the name to 50. Uniqueness excludes the row's own id, and only that row changes. |
| Partners.PartnerUpdatePreserves | backend_qlts/src/services/PartnerService.ts:88-105 | A successful update keeps the table well formed and unique. |
| Partners.UpdateCodeLimitGap | backend_qlts/src/services/PartnerService.ts:82-86 | A 7 to 10 character code accepted on create is refused on update. |
| Partners.PartnerDelete | backend_qlts/src/services/PartnerService.ts:107-127 | Delete succeeds exactly when the partner is live and no live product links to it. Failures are NotFound, then CannotDelete. |
| Partners.DeleteKeepsPartnersAnchored | backend_qlts/src/services/PartnerService.ts:111-126 | After a successful delete, every partner of a live product is live. |
| Partners.StatusFilteredListing | backend_qlts/src/services/PartnerService.ts:129-164 | Filtering on a status lists only partners with that status. |
| Partners.PartnerService.CreatePartner | backend_qlts/src/services/PartnerService.ts:25-56 | It returns `PartnerCreate` and appends exactly the new row on success. |
| Partners.PartnerService.UpdatePartner | backend_qlts/src/services/PartnerService.ts:73-106 | It returns `PartnerUpdate` and replaces only that row on success. |
| Partners.PartnerService.DeletePartner | backend_qlts/src/services/PartnerService.ts:107-127 | It follows `PartnerDelete`, soft-deleting only that row. |
| Units.UnitCreate | backend_qlts/src/services/UnitService.ts:12-20 | With a name, create succeeds exactly when the name is unused, including "", since there is no length rule. Without one, the lookup has no condition and matches any unit, so it succeeds only on an empty table. The new unit has the next id and the name, or "" when none came. A refusal is Existed("unit"). |
| Units.MissingNameMatchesAnyUnit | backend_qlts/src/services/UnitService.ts:12-15 | Once any unit exists, a request without a name is refused as if the name were taken. |
| Units.UnitCreatePreserves | backend_qlts/src/services/UnitService.ts:14-19 | A created unit keeps names distinct. |
| Units.SecondCreateRefused | backend_qlts/src/services/UnitService.ts:14-15 | Creating the same name again, whatever was added in between, is refused. |
| Units.UnitService.CreateUnit | backend_qlts/src/services/UnitService.ts:12-20 | It returns `UnitCreate`, including for a request without a name, and appends exactly one unit on success, or nothing on failure. |
| Units.UnitService.GetAllUnits | backend_qlts/src/services/UnitService.ts:23-27 | It returns every unit, and their names are distinct. |
| Products.ProductCode | backend_qlts/src/services/ProductService.ts:27-36 | A supplied code is kept; an empty one is generated from the live codes. |
| Products.LinkedPartners | backend_qlts/src/services/ProductService.ts:55-58 | The `In(ids)` lookup yields exactly the live partners whose id was requested. |
| Products.PartnerCountMatches | backend_qlts/src/services/ProductService.ts:59-61 | The number found equals the number requested exactly when the ids are distinct and all refer to live partners. |
| Products.PartnerCheck | backend_qlts/src/services/ProductService.ts:50-62 | An empty list gives InvalidateInput, and a count mismatch gives NotFound. On success the linked partners are requested live ones. |
| Products.PartnerCheckPasses | backend_qlts/src/services/ProductService.ts:50-62 | The check passes exactly for a non-empty list of distinct live partner ids, and the links are exactly those ids. |
| Products.RepeatedPartnerRejected | backend_qlts/src/services/ProductService.ts:59-61 | A repeated partner id is rejected with NotFound, even when that partner exists. |
| Products.ProductCheck | backend_qlts/src/services/ProductService.ts:27-62 | The check passes exactly when the code rules, the name rules (at most 255) and the partner check pass. It reports them in source order: code, taken code, name, taken name, partners. |
| Products.ProductCreate | backend_qlts/src/services/ProductService.ts:25-73 | Create succeeds exactly when the check does. The stored product links exactly the found partners and takes the other fields from the request. |
| Products.ProductCreatePreserves | backend_qlts/src/services/ProductService.ts:64-72 | A created product keeps the table well formed, with unique names and live partner links. |
| Products.GeneratedProductCodeUnchecked | backend_qlts/src/services/ProductService.ts:27-40 | A generated code is never checked for duplicates, so a create can reuse a live code. |
| Products.ProductUpdate | backend_qlts/src/services/ProductService.ts:86-144 | An unknown id gives NotFound first. The name is required, uniqueness excludes its own id, an empty code is regenerated, and the partner list is replaced wholesale. Only that row changes. |
| Products.ProductUpdatePreserves | backend_qlts/src/services/ProductService.ts:130-143 | A successful update keeps the table well formed and anchored. |
| Products.ProductDelete | backend_qlts/src/services/ProductService.ts:147-155 | Delete succeeds exactly for a live product, with no reference check; otherwise NotFound. |
| Products.ProductDeleteKeepsAnchored | backend_qlts/src/services/ProductService.ts:147-155 | Soft-deleting a product keeps the remaining live products' partner links live. |
| Products.JoinedName | backend_qlts/src/services/ProductService.ts:285-312 | A left-joined name is present exactly when the referenced row is live, and then it is that row's name. |
| Products.UnitName | backend_qlts/src/services/ProductService.ts:285-312 | A unit name is present exactly when a unit has that id. |
| Products.LinkedRefs | backend_qlts/src/services/ProductService.ts:268-281 | The partner references shown are exactly the live linked partners. |
| Products.View | backend_qlts/src/services/ProductService.ts:285-312 | A listed product carries its own fields, the joined type, flow and unit names, and its full partner list. |
| Products.ViewOfLive | backend_qlts/src/services/ProductService.ts:157-197 | Every joined row is the view of a live product of the table. |
| Products.ProductMatches | backend_qlts/src/services/ProductService.ts:198-240 | A query without filters matches every product. A partner filter never matches a product without partners, and a note filter never matches a product without a note. |
| Products.ProductListing | backend_qlts/src/services/ProductService.ts:157-280 | The page echoes the request's page and page size, and its total never exceeds the rows of the table. |
| Products.ProductListingMatches | backend_qlts/src/services/ProductService.ts:198-240 | Every listed product is a live product that passes every truthy filter, and the partner filter only when it is non-empty. |
| Products.ProductListingOrdered | backend_qlts/src/services/ProductService.ts:241-262 | The page is sorted by the requested column, with assetType, assetFlow and unit read from the joins, and product.id ASC by default. The total counts the matches. |
| Products.RetiredTypeShownEmpty | backend_qlts/src/services/ProductService.ts:285-312 | A product whose type is gone is shown with no type name, and never passes a type filter. |
| Products.ProductService.Check | backend_qlts/src/services/ProductService.ts:27-62 | It computes `ProductCheck` against the current table, changing nothing. |
| Products.ProductService.CreateProduct | backend_qlts/src/services/ProductService.ts:25-73 | It returns `ProductCreate` and appends exactly the new product on success. |
| Products.ProductService.UpdateProduct | backend_qlts/src/services/ProductService.ts:86-144 | It returns `ProductUpdate` and replaces only that product on success. |
| Products.ProductService.DeleteProduct | backend_qlts/src/services/ProductService.ts:147-155 | It follows `ProductDelete`, soft-deleting only that product. |
| Dashboard.AliveCount | backend_qlts/src/services/DashboardService.ts:53-67 | It counts the products alive at t, soft-deleted ones included: created by t and not deleted by t. The count is zero exactly when none is alive. |
| Dashboard.SoftDeleteKeepsHistory | backend_qlts/src/services/DashboardService.ts:55-66 | A later soft delete does not change the count at an earlier month end. |
| Dashboard.CreateKeepsHistory | backend_qlts/src/services/DashboardService.ts:55-66 | A product created later does not change the count at an earlier month end. |
| Dashboard.ProductCountByMonth | backend_qlts/src/services/DashboardService.ts:47-72 | The loop returns (m, count alive at end of m) for months 1..k, with k ≤ 12. It stops at the first month whose end lies after now. |
| Dashboard.OccurrencesPositive | backend_qlts/src/services/DashboardService.ts:17-22 | A key has a positive count exactly when some product carries it. |
| Dashboard.DistinctKeys | backend_qlts/src/services/DashboardService.ts:21 | GROUP BY yields each key exactly once. |
| Dashboard.GroupCountsRows | backend_qlts/src/services/DashboardService.ts:17-22 | There is one row per distinct key, and its count is the number of products with that key. |
| Dashboard.GroupCountsTotal | backend_qlts/src/services/DashboardService.ts:17-22 | The counts add up to the number of products. |
| Dashboard.LiveColumn | backend_qlts/src/services/DashboardService.ts:17-40 | The grouped column holds exactly the values of live products. |
| Dashboard.CountByGroup | backend_qlts/src/services/DashboardService.ts:17-22 | Every count is positive, each group appears once, and the chart is empty exactly when no product is live. |
| Dashboard.CountByType | backend_qlts/src/services/DashboardService.ts:25-31 | Every count is positive, and the chart is empty exactly when no product is live. |
| Dashboard.CountByFlow | backend_qlts/src/services/DashboardService.ts:34-40 | Every count is positive, and the chart is empty exactly when no product is live. |
| Dashboard.CountByGroupSound | backend_qlts/src/services/DashboardService.ts:17-22 | byGroup has exactly the groups of live products, each once, and its counts add up to the live products. |
| Dashboard.CountByTypeAndFlowTotal | backend_qlts/src/services/DashboardService.ts:25-40 | byType and byFlow add up to the live products; the joined label does not change a count. |
| Dashboard.LinkedProducts | backend_qlts/src/services/DashboardService.ts:79-82 | A partner's count is zero exactly when no live product links to it. |
| Dashboard.CountByPartner | backend_qlts/src/services/DashboardService.ts:75-87 | Each row carries a live partner's code and name and its count of linked products. |
| Dashboard.CountByPartnerComplete | backend_qlts/src/services/DashboardService.ts:77-85 | There is one row per live partner, including those with count 0. |
| Auth.FindByEmail | backend_qlts/src/controller/AuthController.ts:42 | The lookup finds the first user with that email, or none exactly when no user has it. |
| Auth.LoginReply | backend_qlts/src/controller/AuthController.ts:23-91 | The order is: 422 with the first validator message, then NotFound("user"), then WrongCredentials. On success a user with that email and password hash exists, and both tokens are signed over its email and role. |
| Auth.LoginSucceedsIff | backend_qlts/src/controller/AuthController.ts:42-55 | With distinct emails, login succeeds exactly for a stored email and password pair. |
| Auth.RegisterReply | backend_qlts/src/controller/AuthController.ts:92-145 | The order is: 422, then Existed(email), then ConfirmPasswordNotMatch. Success comes exactly with no errors, a new email and a matching confirmation. The user stores the hashed password and the role as given. |
| Auth.RegisterPreserves | backend_qlts/src/controller/AuthController.ts:109-128 | A registration keeps ids ascending and emails distinct. |
| Auth.RegisterThenLogin | backend_qlts/src/controller/AuthController.ts:120-128 | A registered user can then log in with the same password. |
| Auth.Revoke | backend_qlts/src/controller/AuthController.ts:154 | Deleting by token keeps exactly the rows with another token. |
| Auth.LogoutTokens | backend_qlts/src/controller/AuthController.ts:149-155 | With a refresh cookie, no stored row keeps that token afterwards; without one, nothing changes. |
| Auth.LogoutIdempotent | backend_qlts/src/controller/AuthController.ts:147-181 | Logging out twice equals logging out once. |
| Auth.CurrentUser | backend_qlts/src/controller/AuthController.ts:182-192 | The result is 401 exactly when no user is attached. Otherwise it holds the token's email and role and the stored user's name. |
| Auth.Authenticate | backend_qlts/src/middlewares/AuthMiddleware.ts:10-85 | The middleware decides, in order: <br>- a missing access token gives 400 "Missing access token", without consulting the refresh token; <br>- a verifying access token proceeds with its payload; <br>- a non-expiry failure gives 401; <br>- an expired token is renewed exactly when the refresh token is present, verifies and is stored, and the new access token is signed over the refresh payload; <br>- everything else gives 401. |
| Auth.LoginThenRenew | backend_qlts/src/middlewares/AuthMiddleware.ts:50-76 | After a login, an expired access token is renewed through the stored refresh token. |
| Auth.LogoutEndsRenewal | backend_qlts/src/middlewares/AuthMiddleware.ts:57-61 | After a logout, the revoked refresh token no longer renews. |
| Auth.AuthService.Login | backend_qlts/src/controller/AuthController.ts:23-91 | It returns `LoginReply` and stores exactly one new refresh-token row on success, nothing otherwise. |
| Auth.AuthService.Register | backend_qlts/src/controller/AuthController.ts:92-145 | It returns `RegisterReply` and appends exactly the new user on success. |
| Auth.AuthService.Logout | backend_qlts/src/controller/AuthController.ts:147-181 | It always answers 200, and the token table becomes `LogoutTokens` of the old one. |
| Auth.AuthService.GetCurrentUser | backend_qlts/src/controller/AuthController.ts:182-192 | It answers `CurrentUser` over the stored users. |
| Auth.AuthService.Authorize | backend_qlts/src/middlewares/AuthMiddleware.ts:10-85 | It answers `Authenticate` over the stored tokens and never changes the token table. |
| Roles.CheckRole | backend_qlts/src/middlewares/RoleMiddleware.ts:3-13 | A request passes exactly when a user is attached and its role is allowed. |
| Roles.NoUserForbidden | backend_qlts/src/middlewares/RoleMiddleware.ts:5-10 | Without an attached user, every role list forbids. |
| Roles.EmptyRolesForbid | backend_qlts/src/middlewares/RoleMiddleware.ts:5 | An empty role list forbids every request. |
| Roles.CheckRoleMonotone | backend_qlts/src/middlewares/RoleMiddleware.ts:3-5 | Allowing more roles never forbids an allowed request. |
| Roles.Route | backend_qlts/src/routes/AssetFlowRoute.ts:8-14 | A route reaches its controller only as a user with an allowed role, and only after the middleware let the request through. Otherwise it answers 400, 401 or 403. |
| Roles.GuardedRouteAdmits | backend_qlts/src/routes/AssetFlowRoute.ts:9 | A guarded route admits a user exactly when the middleware passes that user and the user's role is allowed. |
| Roles.PartnerWriteAsWritten | backend_qlts/src/routes/PartnerRoute.ts:9-13 | The partner writes as wired, with checkRole and no authMiddleware. |
| Roles.PartnerWritesAlwaysForbidden | backend_qlts/src/routes/PartnerRoute.ts:9-13 | As wired, every partner create, update or delete answers 403. |
| Roles.PartnerWrite | backend_qlts/src/routes/PartnerRoute.ts:8 | The partner writes wired like the other write routes. |
| Roles.PartnerWriteAdmitsWriters | backend_qlts/src/routes/PartnerRoute.ts:8-13 | When wired with the middleware, an admin or staff member with a verifying token is admitted and any other role gets 403. |
| Roles.DashboardAndReadRolesDiffer | backend_qlts/src/routes/DashboardRoute.ts:8-10 | The dashboard admits bul and not staff; the catalogue reads admit staff and not bul. |
| Permissions.EffectiveRole | frontend/src/hooks/UsePermissions.ts:11 | No user, or an empty role, reads as "guest"; otherwise it is the user's role. |
| Permissions.Flags | frontend/src/hooks/UsePermissions.ts:9-20 | canRead holds exactly for admin, staff and user; canCUD exactly for admin and staff. canCUD implies canRead. |
| Permissions.GuestAndBulGetNothing | frontend/src/hooks/UsePermissions.ts:11-19 | Guests and bul users get neither flag. |
| Permissions.FlagsMatchRoutes | frontend/src/hooks/UsePermissions.ts:13-19 | The flags agree with the backend's read and write guards for the same role. |
| DataTable.WithDefaults | frontend/src/components/Table.tsx:36-42 | An absent prop takes its default (DESC, page 1, size 10, total 0); a present one is kept. |
| DataTable.HandleSort | frontend/src/components/Table.tsx:50-57 | No callback, no request. The clicked column flips its direction when it is current, and otherwise starts DESC. |
| DataTable.ClicksCycleDirection | frontend/src/components/Table.tsx:50-57 | Clicking a new column repeatedly gives DESC, ASC, DESC. |
| DataTable.TotalPages | frontend/src/components/Table.tsx:48 | `Math.ceil(total / pageSize)`: enough pages for every row and no extra page, and zero exactly for no rows. |
| DataTable.TotalPagesLeast | frontend/src/components/Table.tsx:48 | No smaller page count holds every row. |
| DataTable.Press | frontend/src/components/Table.tsx:363-379 | Prev is disabled exactly on page 1 and Next exactly from the last page on. Otherwise they request page − 1 or page + 1. |
| DataTable.PressStaysInRange | frontend/src/components/Table.tsx:363-379 | From a page between 1 and the last, a press stays between them. |
| DataTable.EmptyTableHasNoNext | frontend/src/components/Table.tsx:48 | With no rows there are no pages and Next is disabled. |
| DataTable.ChoosePageSize | frontend/src/components/Table.tsx:351-354 | Choosing a size requests that size and then page 1. |
| DataTable.ApplyRequests | frontend/src/components/Table.tsx:351-354 | Applying the table's requests never changes the total. |
| DataTable.PageSizeChangeRestarts | frontend/src/components/Table.tsx:351-354 | After a size change the parent is on page 1 at that size, which is in range when there is a row. |
| DataTable.Without | frontend/src/components/Table.tsx:162 | Filtering out a value removes every occurrence of it and keeps every other element with its multiplicity. |
| DataTable.WithoutConcat | frontend/src/components/Table.tsx:162 | Filtering distributes over concatenation, so the values kept stay in their order. |
| DataTable.WithoutAbsent | frontend/src/components/Table.tsx:162 | Removing an absent value changes nothing. |
| DataTable.Toggle | frontend/src/components/Table.tsx:156-164 | A selected value is removed with all its copies, every other value keeping its multiplicity. Any other value is appended at the end. A non-array filter counts as empty. |
| DataTable.ToggleKeepsOrder | frontend/src/components/Table.tsx:156-164 | Unselecting a value leaves the values before it and after it in their order. |
| DataTable.ToggleTwice | frontend/src/components/Table.tsx:156-164 | Toggling the same option twice restores the selection. |
| DataTable.SelectedLabels | frontend/src/components/Table.tsx:61-63 | Every label is the caption of a selected option, and every selected option's caption is among the labels. There are none when no option is selected. |
| DataTable.SelectedLabelsConcat | frontend/src/components/Table.tsx:61-63 | The labels of a concatenation of options are the labels of each part in option order. |
| DataTable.MultiSelectLabel | frontend/src/components/Table.tsx:59-65 | The label is empty for a non-array value or a column without options. The joined text for options is stated by MultiSelectLabelOne and MultiSelectLabelConcat. |
| DataTable.MultiSelectLabelOne | frontend/src/components/Table.tsx:59-65 | A single option shows its caption exactly when its value is selected. |
| DataTable.MultiSelectLabelConcat | frontend/src/components/Table.tsx:59-65 | The text for two runs of options is the two texts joined with ", ", or whichever of them has labels. |
| DataTable.JoinConcat | frontend/src/components/Table.tsx:64 | Joining two non-empty lists puts the separator once between their joins. |
| DataTable.MultiSelectLabelEmptyIff | frontend/src/components/Table.tsx:59-65 | With non-empty labels, the text is empty exactly when no option is selected. |
| LoginPage.EmailMessage | frontend/src/pages/LoginPage.tsx:18-24 | "Email is required." when empty, "Invalid email format." without a `\S+@\S+` match, and no message exactly when it matches. |
| LoginPage.PasswordMessage | frontend/src/pages/LoginPage.tsx:26-29 | There is no message exactly when a password is present; there is no length rule. |
| LoginPage.Edit | frontend/src/pages/LoginPage.tsx:36 | The edited field takes the value and the other field is kept. |
| LoginPage.ClearMessage | frontend/src/pages/LoginPage.tsx:37 | Only the edited field's message is cleared. |
| LoginPage.ShortPasswordAccepted | frontend/src/pages/LoginPage.tsx:26-29 | A one-character password passes the login form. |
| LoginPage.LoginForm.Validate | frontend/src/pages/LoginPage.tsx:13-33 | Both messages are recorded, and the answer is valid exactly when both are empty, that is when the form is ready. |
| LoginPage.LoginForm.HandleChange | frontend/src/pages/LoginPage.tsx:35-39 | The field and its message are updated, and the server error is cleared. |
| LoginPage.LoginForm.HandleLogin | frontend/src/pages/LoginPage.tsx:41-58 | Both field messages are recorded, the server message is left as it was, and a request carrying the form is sent exactly when the form validates. |
| RegisterPage.EmailMessage | frontend/src/pages/RegisterPage.tsx:32-38 | "Email is required." when empty, "Invalid email format." without a `\S+@\S+\.\S+` match, and no message exactly when it matches. |
| RegisterPage.NameMessage | frontend/src/pages/RegisterPage.tsx:40-43 | There is no message exactly when a name is present. |
| RegisterPage.PasswordMessage | frontend/src/pages/RegisterPage.tsx:45-51 | "Password is required." when empty, the length message under 8, and no message exactly from 8 characters on. |
| RegisterPage.ConfirmMessage | frontend/src/pages/RegisterPage.tsx:53-59 | "Confirm password is required." when empty, a mismatch message when different, and no message exactly when it equals the password. |
| RegisterPage.Edit | frontend/src/pages/RegisterPage.tsx:68-71 | The edited field takes the value and the others are kept. |
| RegisterPage.ErrorsAfterEdit | frontend/src/pages/RegisterPage.tsx:73-97 | The edited field's message is cleared. The confirmation is rechecked against the password when either is typed, the password case only once a confirmation exists. |
| RegisterPage.EditKeepsMismatchHonest | frontend/src/pages/RegisterPage.tsx:79-97 | After such an edit, the mismatch message shows exactly when the two fields differ. |
| RegisterPage.RegisterEmailIsLoginEmail | frontend/src/pages/RegisterPage.tsx:35 | A registration email always passes the login check; "a@b" passes login and not registration. |
| RegisterPage.SentFormPassesConfirmation | frontend/src/pages/RegisterPage.tsx:100-105 | A form the page sends never fails the backend's confirmation check. |
| RegisterPage.RegisterForm.Validate | frontend/src/pages/RegisterPage.tsx:23-63 | All four messages are recorded, and valid holds exactly when all are empty, that is when the form is ready. |
| RegisterPage.RegisterForm.HandleChange | frontend/src/pages/RegisterPage.tsx:65-98 | The form takes the edit, and the messages become `ErrorsAfterEdit` of the old ones. |
| RegisterPage.RegisterForm.HandleRegister | frontend/src/pages/RegisterPage.tsx:100-111 | All four field messages are recorded, and a request carrying the form is sent exactly when the form validates. |

## Left out

- **Storage and I/O.** MySQL, TypeORM and HTTP are replaced by in-memory sequences. Column widths, NOT NULL, foreign keys and database-level UNIQUE constraints are not modelled. Database errors and every 500 response are left out.
- **Excel import.** Reading the workbook is left out: the import takes the sheet's rows from row 3 as a sequence of four text cells. Excel export and the template are not part of this model.
- **Text matching.** LIKE wildcards inside a search string are treated as literal text. The database collation is left out: comparisons and the lexicographic "greatest code" are exact and case-sensitive over characters. Lengths count characters, not UTF-16 units.
- **Listing orderBy.** An orderBy naming no column is left out: the model's orderBy is one of the named columns.
- **Page arguments.** A page or pageSize that is not positive, or is NaN, gets a clamped window in `Paging.Window`. What the database does with a negative offset or limit is not modelled.
- **Partner codes.** The empty-string partner code reaches the database, whose handling of "" in a UNIQUE column is left out.
- **Asset-type listing.** `AssetTypes.TypeListing` requires every live type to point at a live group: the join of a dangling type is left out.
- **Joined partners.** The joined partner list is assumed to come back in table order.
- **Detail lookups.** getXById, getActiveAssetTypes, the controllers other than AuthController, and the route files other than the guard wiring are not part of this model.
- **Units.** No service deletes a unit, so the model keeps every unit. The entity's `@DeleteDateColumn` is not modelled.
- UnitCreate: on an empty table, a request without a name is modelled as saving the empty name. The NOT NULL column would refuse it with a database error, which is left out with the other database errors.
- CreateUnit: the same as UnitCreate for a request without a name on an empty table.
- **Dashboard.**
  - GROUP BY rows are listed in order of first appearance.
  - Month ends and the clock are inputs.
  - Product foreign keys are not checked when counting.
- **Credentials.** bcrypt, its salt and its timing are left out. `hash` is a function parameter, and a password matches when its hash equals the stored one.
- **Tokens.** JWT signing, verification and expiry times are left out. Verification is an input returning Verified, Expired or Malformed.
- **Cookies.** Cookie options and maxAge, and the clearing of cookies, are left out.
- **Express-validator.** Its rules are not part of this model. Their messages arrive as the `errors` list.
- **Registration role.**
  - The registration page sends no role, so the backend stores whatever the request carries. The model keeps the role as given.
  - The database enum for roles lacks 'staff'; that restriction is left out.
- **Missing user.** getCurrentUser dereferences the looked-up user without checking it. The model answers `MissingUser` where the source would fail with a 500.
- **Front-end role names.** The front end's role constants file is not part of this model; its values are taken to be the backend's enum strings.
- **Front-end UI.**
  - The single-select dropdown's lower-case text filter is left out.
  - The open-dropdown state and rendering are left out.
  - ProtectedRoute, AuthContext, navigation and alerts are left out.
- **Network.** The network calls after a form's gate are left out.
- AssetGroups.Normalise: lower-cases ASCII letters only, where `toLowerCase` also folds other scripts. No other character lower-cases to a letter of `active` or `inactive`, so no row's outcome changes.

## Findings

| source | as written | input that shows it | evidently intended | confidence | as-written member | corrected member |
|---|---|---|---|---|---|---|
| backend_qlts/src/routes/PartnerRoute.ts:9-13 | create, update and delete use `checkRole(ADMIN, STAFF)` without `authMiddleware`, so no user is ever attached to the request | an admin with a valid access token sends POST /partner: checkRole sees no user and answers 403 "Forbidden" | `authMiddleware` before `checkRole`, as on every other write route | high; not executed | Roles.PartnerWritesAlwaysForbidden | Roles.PartnerWriteAdmitsWriters |
