# Transceiver catalog: record store, credential gate and page logic

A Dafny model of the back end of a small catalog of optical transceivers and
of the decisions its web page takes before calling it.

- `data_manager.dfy` (module `DataManager`): the record store. The catalog
  is an ordered list of records (`map<string, string>`, one entry per field)
  held as the whole content of one JSON file. Class `Store` keeps that file
  as the field `file: Option<seq<Record>>`, where `None` means the file does
  not exist yet. Every operation loads the list (creating the file with `[]`
  when it is absent) and, if it changes anything, saves the whole list
  back. Records are keyed by their `sku`. Every stored record is required to
  have one (`Valid`), because the source reads `t['sku']` of each.
- `auth.dfy` (module `Auth`): the credential gate of auth.py. Class
  `Gate` keeps the stored password digest as `stored: Option<string>`, with
  `None` for an absent credential file. The digest function (SHA-256 in hex
  in the source) stays abstract: it is the `hash` the gate is built with.
  The properties that need distinct passwords to have distinct digests
  assume this through `Injective(hash)`.
- `streamlit_app.dfy` (module `StreamlitApp`): the page logic. It covers the
  catalog filter chain (four equality selectors where `"All"` is a wildcard,
  then a case-insensitive search over sku, name and description) and the
  selector option lists. It also covers the add-form guard, the edit form
  (which keeps the record's SKU), the change-password checks in their
  order, and the session's `authenticated` flag.
- `ordering.dfy` (module `Ordering`): Python's ordering of strings and the
  sorted, duplicate-free list that `sorted(...unique())` produces.
- `wrappers.dfy` (module `Wrappers`): `Option`.

Three behaviours of the code worth noting:
- `get_unique_values` drops only missing values. A field whose value is the
  empty string contributes `""`.
- A present but malformed credential file is not re-initialised. The code
  would raise, and this is not modelled.
- `add_transceiver` does not itself check that the SKU is non-empty. The
  add form's guard does that.

## Model

| member | source | states |
|---|---|---|
| `DataManager.FirstIndex` | data_manager.py:43-44 | the position found is the first record whose SKU matches; there is none exactly when no record has that SKU |
| `DataManager.FindFirst` | data_manager.py:68-72 | the in-order scan stops at the first record with the SKU and reports none when no record has it (the loop of both `get_transceiver` and `update_transceiver`) |
| `DataManager.LookupFindsFirst` | data_manager.py:64-72 | `get` gives `None` exactly when no record has the SKU, and otherwise the first record in list order that has it |
| `DataManager.LookupUnique` | data_manager.py:64-72 | when SKUs are unique, `get(sku)` returns `t` exactly when `t` is stored under `sku` |
| `DataManager.AddThenLookup` | data_manager.py:35-37 | after appending a record with a fresh SKU, `get` of that SKU returns the appended record |
| `DataManager.AddKeepsUnique` | data_manager.py:31-37 | appending only when the SKU is fresh keeps SKUs unique |
| `DataManager.UpdateSameSku` | data_manager.py:43-47 | replacing the first match by a record with the same SKU keeps the set of SKUs and their uniqueness, and `get` of that SKU then returns the new record |
| `DataManager.Without` | data_manager.py:56 | the comprehension keeps exactly the records whose SKU differs, every record keeps its SKU, and the list shrinks exactly when some record had the SKU |
| `DataManager.WithoutConcat` | data_manager.py:56 | the kept records stay in their original order (deleting from a concatenation deletes from each part) |
| `DataManager.WithoutNoMatch` | data_manager.py:54-62 | with no record of the SKU the comprehension leaves the list as it was |
| `DataManager.WithoutKeepsUnique` | data_manager.py:56 | deleting keeps SKUs unique |
| `DataManager.DeletedNotFound` | data_manager.py:51-62 | after a delete, `get` of the deleted SKU gives `None` |
| `DataManager.ValuesOf` | data_manager.py:88 | `dropna` keeps exactly the values of the field in the records that have it |
| `DataManager.UniqueValues` | data_manager.py:84-89 | the result is strictly ascending (sorted, no duplicates) and holds exactly the values of the field in records that have it; records without it are skipped, `""` is kept, and an empty store gives `[]` |
| `DataManager.UniqueValuesCanonical` | data_manager.py:88 | any strictly ascending list of exactly those values is the result, so the result is Python's `sorted(unique(...))` |
| `DataManager.Lookup` | data_manager.py:64-72 | the first record with the SKU, which is stored and carries that SKU; `None` exactly when no record has it |
| `DataManager.Store.constructor` | data_manager.py:6 | the store starts from the given file state and is valid exactly when every record in it has a SKU |
| `DataManager.Store.EnsureDataFile` | data_manager.py:8-13 | an absent file becomes `[]`; an existing file is left as it is |
| `DataManager.Store.LoadTransceivers` | data_manager.py:15-19 | returns the stored list, or `[]` for an absent file, which is then created holding `[]` |
| `DataManager.Store.SaveTransceivers` | data_manager.py:21-25 | the file then holds exactly the given list |
| `DataManager.Store.AddTransceiver` | data_manager.py:27-37 | returns false and leaves the list unchanged exactly when a stored record already has the SKU; otherwise the list becomes the old list plus the record at the end |
| `DataManager.Store.UpdateTransceiver` | data_manager.py:39-49 | returns true exactly when some record has the SKU; then only the first match's position changes, to `updated_data` whatever its SKU; otherwise nothing is written |
| `DataManager.Store.DeleteTransceiver` | data_manager.py:51-62 | returns true exactly when some record had the SKU; then every such record is removed; otherwise nothing is saved |
| `DataManager.Store.GetTransceiver` | data_manager.py:64-72 | returns the first record with the SKU or `None`, and changes nothing but creating an absent file |
| `DataManager.Store.GetUniqueValues` | data_manager.py:84-89 | returns the sorted distinct values of the field over the stored list |
| `Ordering.Below` | data_manager.py:88 | Python's `<` on strings: by code point, a proper prefix first; never relates a string to itself, and is a strict total order (`BelowIrreflexive`, `BelowTransitive`, `BelowTotal`) |
| `Ordering.SortedDistinct` | data_manager.py:88 | the result is strictly ascending in Python's string order and holds exactly the input's values |
| `Ordering.AscendingUnique` | data_manager.py:88 | two strictly ascending lists with the same values are equal |
| `Auth.Gate.constructor` | auth.py:4-8 | the gate starts from the given credential state, with `hash` standing for `hash_password` |
| `Auth.Gate.EnsureAuthFile` | auth.py:11-20 | an absent credential gets the digest of `admin123`; a present one is left as it is, so calling it twice is calling it once |
| `Auth.Gate.VerifyPassword` | auth.py:22-28 | true exactly when the candidate's digest equals the digest in force; an existing digest is never altered |
| `Auth.Gate.ChangePassword` | auth.py:30-44 | with a wrong old password returns false and the digest is unchanged; with the right one returns true and stores the new password's digest, so the new password verifies and the old one verifies only if it has the same digest |
| `Auth.Gate.GetDefaultPasswordInfo` | auth.py:46-51 | the warning exactly when the digest in force is that of `admin123`, and `""` otherwise |
| `Auth.FreshInstallation` | auth.py:11-51 | on a fresh installation `admin123` verifies and the default-password warning is returned |
| `Auth.Rotation` | auth.py:30-51 | with an injective digest, after a successful change the new password verifies, the old one does not, and the warning is gone unless the new password is `admin123` |
| `Auth.RejectedChange` | auth.py:30-33 | a change with a wrong old password fails and the password in force still verifies |
| `StreamlitApp.Filter` | streamlit_app.py:110-111 | a boolean mask keeps exactly the rows it holds for |
| `StreamlitApp.FilterConcat` | streamlit_app.py:110-128 | masks keep the rows' relative order |
| `StreamlitApp.FilterTwice` | streamlit_app.py:110-128 | two successive masks are one mask by their conjunction |
| `StreamlitApp.ContainsIgnoringCase` | streamlit_app.py:125-127 | a match needs the term to be no longer than the text, and the empty term matches every text |
| `StreamlitApp.ContainsAt` | streamlit_app.py:125-127 | the case-insensitive search finds the term exactly when it starts, ignoring case, at some position of the text |
| `StreamlitApp.NarrowBy` | streamlit_app.py:110-120 | a selector step keeps exactly the rows for which the choice is `"All"` or equals the row's field |
| `StreamlitApp.SearchBy` | streamlit_app.py:123-128 | the search step keeps exactly the rows for which the term is empty or is found, ignoring case, in sku, name or description |
| `StreamlitApp.CatalogView` | streamlit_app.py:108-128 | the filter chain keeps exactly the rows that every selector and the search admit |
| `StreamlitApp.NarrowIsMask` | streamlit_app.py:110-120 | a selector step keeps a row exactly when the choice is `"All"` or equals the row's field; a row without the field does not match |
| `StreamlitApp.SearchIsMask` | streamlit_app.py:123-128 | the search step keeps a row exactly when the term is empty or sku, name or description contains it, ignoring case; a missing value does not match |
| `StreamlitApp.CatalogViewIsFilter` | streamlit_app.py:108-128 | a row is shown exactly when every selector and the search admit it, and the shown rows keep their stored order |
| `StreamlitApp.EmptySearchIgnored` | streamlit_app.py:123 | with an empty search term only the four selectors decide |
| `StreamlitApp.InitialSelectionShowsAll` | streamlit_app.py:101-128 | with `"All"` in every selector and no search term, the whole catalog is shown in order |
| `StreamlitApp.SelectorOptions` | streamlit_app.py:85-98 | the options are `"All"` followed by `get_unique_values` of the field: exactly the field's stored values, sorted and without duplicates |
| `StreamlitApp.OfferedFormFactorShowsARow` | streamlit_app.py:85-111 | choosing any offered form factor, with the other selectors on `"All"` and no search term, shows at least one row |
| `StreamlitApp.ToRecord` | streamlit_app.py:287-299 | the add form's record has exactly the eleven field names, each holding its input |
| `StreamlitApp.AllFilled` | streamlit_app.py:286 | the add-form guard passes exactly when every one of the eleven fields of the record it would build is non-empty |
| `StreamlitApp.FilledFormGivesFullRecord` | streamlit_app.py:286-299 | a record built from a form that passes the guard has a non-empty value for each of the eleven fields |
| `StreamlitApp.EditedRecord` | streamlit_app.py:323-368 | the edit form's record has the eleven fields and always carries the edited record's own SKU |
| `StreamlitApp.PasswordFormError` | streamlit_app.py:234-239 | the checks in their order: the empty-field error exactly when a field is empty; otherwise the mismatch error exactly when new differs from the confirmation; otherwise the too-short error exactly when new has fewer than 6 characters; no error exactly when all three pass |
| `StreamlitApp.Session.constructor` | streamlit_app.py:15-16 | a new session is not authenticated |
| `StreamlitApp.Session.SubmitLogin` | streamlit_app.py:196-202 | the session becomes authenticated exactly when the password is non-empty and its digest equals the one in force; an empty password does not consult the gate |
| `StreamlitApp.Session.Logout` | streamlit_app.py:214-217 | the session is no longer authenticated |
| `StreamlitApp.Session.ShowPasswordForm` | streamlit_app.py:219-223 | the change-password form shows when its button was clicked or it was already open, and it then stays open |
| `StreamlitApp.Session.SubmitPasswordChange` | streamlit_app.py:233-246 | a failing check is reported in order and leaves the gate untouched; otherwise `change_password` decides, and success closes the form |
| `StreamlitApp.Session.SubmitAdd` | streamlit_app.py:285-307 | with any input empty the store is not called; otherwise the record is added exactly when its SKU is fresh, else a duplicate is reported |
| `StreamlitApp.Session.SubmitEdit` | streamlit_app.py:355-374 | an edit replaces only the first record with the edited record's own SKU and leaves every other record as it was, so the set of SKUs and their uniqueness are kept and `get` then returns the edited record |

## Left out

- DataManager.Store.AddTransceiver: requires the record to have a SKU, which every record the add form builds has. The source behaves differently without one. On an empty store it appends the record and returns true, because `any(...)` over an empty list never reads `transceiver['sku']`, and every later add, update, delete or get then raises `KeyError` at `t['sku']`; loading, saving and `get_unique_values` do not. On a non-empty store it raises `KeyError`. Neither case is modelled.
- File-system and JSON plumbing (`os.path.exists`, `makedirs`, `json.load`/`dump`, indentation): each file is an optional state field.
- Unreadable or corrupt files, and failing writes. The source raises on them and does not repair a corrupt file.
- Concurrency: two processes that race on a file, where the last writer wins.
- The digest itself (SHA-256 and its hex rendering): it is the abstract function `hash`. `Injective` stands in for collision resistance where a property needs it.
- `get_transceivers_df` (building the pandas frame and inferring its columns) is not part of this model. The rows are the stored records. A field missing from a record reads as a missing value.
- `StreamlitApp.ContainsIgnoringCase`: pandas `str.contains` treats the term as a regular expression and folds case for all of Unicode. The model matches the term literally and folds ASCII letters only.
- A `KeyError` when no stored record has a `name` or `description` field at all and a search term is given. The model treats the missing column as missing values.
- The `.index(...)` calls that pre-select the edit form's choices. Rendering the edit form is not modelled, only its submission.
- All rendering, layout, CSS, navigation buttons, `st.rerun` and the confirm-delete button. The delete button calls `Store.DeleteTransceiver` with the selected SKU unchanged.
