/**
 * The decisions in the catalog's web page (streamlit_app.py) that choose
 * which rows are shown and when the record store or the credential gate is
 * called: the catalog filter chain, the selector option lists, the add,
 * edit and change-password form handlers, and the session's login flag.
 * Rendering is not modelled.
 */
module StreamlitApp {
  import opened Wrappers
  import opened DataManager
  import Auth

  /** The wildcard entry at the head of every selector. */
  const All: string := "All"

  // ---------------------------------------------------------------------
  // Catalog filter
  // ---------------------------------------------------------------------

  /** What the visitor chose: four selectors and the search box. */
  datatype Selection = Selection(
    formFactor: string, dataRate: string, connector: string, status: string, search: string)

  /** The rows for which `keep` holds, in their order (a boolean-mask `df[...]`). */
  function Filter(rs: seq<Record>, keep: Record -> bool): (kept: seq<Record>)
    ensures forall r :: r in kept <==> r in rs && keep(r)
    ensures |kept| <= |rs|
    decreases |rs|
  {
    if rs == [] then []
    else
      var tail := Filter(rs[1..], keep);
      assert forall r :: r in rs <==> r == rs[0] || r in rs[1..];
      if keep(rs[0]) then [rs[0]] + tail else tail
  }

  /** Filtering keeps relative order: filtering a concatenation filters each part. */
  lemma {:induction false} FilterConcat(a: seq<Record>, b: seq<Record>, keep: Record -> bool)
    ensures Filter(a + b, keep) == Filter(a, keep) + Filter(b, keep)
    decreases |a|
  {
    if a == [] {
      assert a + b == b;
    } else {
      assert (a + b)[1..] == a[1..] + b;
      FilterConcat(a[1..], b, keep);
    }
  }

  /** Two successive masks are one mask by the conjunction. */
  lemma {:induction false} FilterTwice(rs: seq<Record>, p: Record -> bool, q: Record -> bool, both: Record -> bool)
    requires forall r :: both(r) == (p(r) && q(r))
    ensures Filter(Filter(rs, p), q) == Filter(rs, both)
    decreases |rs|
  {
    if rs != [] {
      FilterTwice(rs[1..], p, q, both);
    }
  }

  /** A mask that holds everywhere keeps every row. */
  lemma {:induction false} FilterEverything(rs: seq<Record>, keep: Record -> bool)
    requires forall r :: r in rs ==> keep(r)
    ensures Filter(rs, keep) == rs
    decreases |rs|
  {
    if rs != [] {
      assert forall r :: r in rs[1..] ==> r in rs;
      FilterEverything(rs[1..], keep);
      assert rs == [rs[0]] + rs[1..];
    }
  }

  /** `df[field] == value` on one row: a row without the field never matches. */
  predicate FieldIs(r: Record, field: string, value: string) {
    field in r && r[field] == value
  }

  /** ASCII upper case to lower case; every other character is its own lower case. */
  function Lower(c: char): char {
    if 'A' <= c <= 'Z' then (c as int - 'A' as int + 'a' as int) as char else c
  }

  /** `text` begins with `term`, ignoring case. */
  predicate StartsWithIgnoringCase(text: string, term: string) {
    |term| <= |text| && forall i :: 0 <= i < |term| ==> Lower(text[i]) == Lower(term[i])
  }

  /** `term` occurs somewhere in `text`, ignoring case. */
  predicate ContainsIgnoringCase(text: string, term: string)
    ensures ContainsIgnoringCase(text, term) ==> |term| <= |text|
    ensures term == [] ==> ContainsIgnoringCase(text, term)
    decreases |text|
  {
    StartsWithIgnoringCase(text, term) || (text != [] && ContainsIgnoringCase(text[1..], term))
  }

  /** The recursive search finds exactly the positions where `term` starts. */
  lemma {:induction false} ContainsAt(text: string, term: string)
    ensures ContainsIgnoringCase(text, term) <==>
      exists i :: 0 <= i <= |text| && StartsWithIgnoringCase(text[i..], term)
    decreases |text|
  {
    assert text[0..] == text;
    if text != [] {
      ContainsAt(text[1..], term);
      forall i | 0 <= i <= |text[1..]| ensures text[1..][i..] == text[i + 1..] { }
      if exists i :: 0 <= i <= |text| && StartsWithIgnoringCase(text[i..], term) {
        var i :| 0 <= i <= |text| && StartsWithIgnoringCase(text[i..], term);
        if i > 0 {
          assert text[1..][i - 1..] == text[i..];
        }
      }
    }
  }

  /** `df[field].str.contains(term, case=False, na=False)` on one row. */
  predicate FieldContains(r: Record, field: string, term: string) {
    field in r && ContainsIgnoringCase(r[field], term)
  }

  /** One selector step: no narrowing for "All", else keep rows whose field equals the choice. */
  function NarrowBy(rs: seq<Record>, field: string, choice: string): (kept: seq<Record>)
    ensures forall r :: r in kept <==> r in rs && Admits(r, field, choice)
  {
    if choice != All then Filter(rs, r => FieldIs(r, field, choice)) else rs
  }

  /** The search step: a non-empty term keeps rows whose sku, name or description contains it. */
  function SearchBy(rs: seq<Record>, term: string): (kept: seq<Record>)
    ensures forall r :: r in kept <==> r in rs && Found(r, term)
  {
    if term != "" then
      Filter(rs, r => FieldContains(r, "sku", term) || FieldContains(r, "name", term)
                      || FieldContains(r, "description", term))
    else rs
  }

  /** The rows the catalog shows: the four selectors, then the search, applied in turn. */
  function CatalogView(rs: seq<Record>, sel: Selection): (shown: seq<Record>)
    ensures forall r :: r in shown <==> r in rs && Shown(r, sel)
  {
    if rs == [] then rs
    else
      var byFormFactor := NarrowBy(rs, "form_factor", sel.formFactor);
      var byDataRate := NarrowBy(byFormFactor, "data_rate", sel.dataRate);
      var byConnector := NarrowBy(byDataRate, "connector", sel.connector);
      var byStatus := NarrowBy(byConnector, "status", sel.status);
      SearchBy(byStatus, sel.search)
  }

  /** One selector lets a row through: it is "All" or equal to the row's field. */
  predicate Admits(r: Record, field: string, choice: string) {
    choice == All || FieldIs(r, field, choice)
  }

  /** The search lets a row through: no term, or a case-insensitive hit in sku, name or description. */
  predicate Found(r: Record, term: string) {
    term == "" || FieldContains(r, "sku", term) || FieldContains(r, "name", term)
    || FieldContains(r, "description", term)
  }

  /** Every selector and the search let the row through. */
  predicate Shown(r: Record, sel: Selection) {
    && Admits(r, "form_factor", sel.formFactor)
    && Admits(r, "data_rate", sel.dataRate)
    && Admits(r, "connector", sel.connector)
    && Admits(r, "status", sel.status)
    && Found(r, sel.search)
  }

  /** A narrowing step is the mask of its selector. */
  lemma NarrowIsMask(rs: seq<Record>, field: string, choice: string)
    ensures NarrowBy(rs, field, choice) == Filter(rs, r => Admits(r, field, choice))
  {
    if choice == All {
      FilterEverything(rs, r => Admits(r, field, choice));
    } else {
      FilterTwice(rs, r => true, r => FieldIs(r, field, choice), r => Admits(r, field, choice));
      FilterEverything(rs, r => true);
    }
  }

  /** The search step is the mask of `Found`. */
  lemma SearchIsMask(rs: seq<Record>, term: string)
    ensures SearchBy(rs, term) == Filter(rs, r => Found(r, term))
  {
    if term == "" {
      FilterEverything(rs, r => Found(r, term));
    } else {
      var hit := (r: Record) => FieldContains(r, "sku", term) || FieldContains(r, "name", term)
                                || FieldContains(r, "description", term);
      FilterTwice(rs, r => true, hit, r => Found(r, term));
      FilterEverything(rs, r => true);
    }
  }

  /**
   * The chain of reassignments is a single filter by `Shown`: a row is shown
   * exactly when every selector and the search admit it, and the rows keep
   * their stored order.
   */
  lemma CatalogViewIsFilter(rs: seq<Record>, sel: Selection)
    ensures CatalogView(rs, sel) == Filter(rs, r => Shown(r, sel))
    ensures forall r :: r in CatalogView(rs, sel) <==> r in rs && Shown(r, sel)
  {
    if rs != [] {
      var ff := (r: Record) => Admits(r, "form_factor", sel.formFactor);
      var dr := (r: Record) => Admits(r, "data_rate", sel.dataRate);
      var co := (r: Record) => Admits(r, "connector", sel.connector);
      var st := (r: Record) => Admits(r, "status", sel.status);
      var fd := (r: Record) => Found(r, sel.search);
      var s1 := NarrowBy(rs, "form_factor", sel.formFactor);
      NarrowIsMask(rs, "form_factor", sel.formFactor);
      var s2 := NarrowBy(s1, "data_rate", sel.dataRate);
      NarrowIsMask(s1, "data_rate", sel.dataRate);
      FilterTwice(rs, ff, dr, r => ff(r) && dr(r));
      var s3 := NarrowBy(s2, "connector", sel.connector);
      NarrowIsMask(s2, "connector", sel.connector);
      FilterTwice(rs, r => ff(r) && dr(r), co, r => ff(r) && dr(r) && co(r));
      var s4 := NarrowBy(s3, "status", sel.status);
      NarrowIsMask(s3, "status", sel.status);
      FilterTwice(rs, r => ff(r) && dr(r) && co(r), st, r => ff(r) && dr(r) && co(r) && st(r));
      SearchIsMask(s4, sel.search);
      FilterTwice(rs, r => ff(r) && dr(r) && co(r) && st(r), fd, r => Shown(r, sel));
    }
  }

  /** An empty search box applies no text filter: only the selectors decide. */
  lemma EmptySearchIgnored(rs: seq<Record>, sel: Selection)
    requires sel.search == ""
    ensures forall r :: r in CatalogView(rs, sel) <==>
      && r in rs
      && Admits(r, "form_factor", sel.formFactor) && Admits(r, "data_rate", sel.dataRate)
      && Admits(r, "connector", sel.connector) && Admits(r, "status", sel.status)
  {
  }

  /** The initial selection ("All" everywhere, no search) shows the whole catalog in order. */
  lemma InitialSelectionShowsAll(rs: seq<Record>)
    ensures CatalogView(rs, Selection(All, All, All, All, "")) == rs
  {
  }

  /** A selector's options: "All", then the field's distinct stored values in order. */
  function SelectorOptions(rs: seq<Record>, field: string): (options: seq<string>)
    ensures |options| > 0 && options[0] == All
    ensures options[1..] == UniqueValues(rs, field)
    ensures forall v :: v in options[1..] <==> exists r :: r in rs && field in r && r[field] == v
  {
    [All] + UniqueValues(rs, field)
  }

  /** Choosing any offered form factor (other selectors "All", no search) shows at least one row. */
  lemma OfferedFormFactorShowsARow(rs: seq<Record>, v: string)
    requires v in SelectorOptions(rs, "form_factor")[1..]
    ensures CatalogView(rs, Selection(v, All, All, All, "")) != []
  {
  }

  // ---------------------------------------------------------------------
  // Admin forms
  // ---------------------------------------------------------------------

  /** The eleven inputs of the add and edit forms. */
  datatype TransceiverForm = TransceiverForm(
    sku: string, name: string, formFactor: string, dataRate: string, wavelength: string,
    reach: string, connector: string, temperature: string, power: string,
    description: string, status: string)

  /** The field names of a transceiver record. */
  const FieldNames: set<string> := {
    "sku", "name", "form_factor", "data_rate", "wavelength", "reach",
    "connector", "temperature", "power", "description", "status"}

  /** The record the add form builds (`new_transceiver`, and `updated_transceiver` of the edit form). */
  function ToRecord(f: TransceiverForm): (r: Record)
    ensures r.Keys == FieldNames
    ensures r[SkuField] == f.sku && r["name"] == f.name && r["form_factor"] == f.formFactor
    ensures r["data_rate"] == f.dataRate && r["wavelength"] == f.wavelength && r["reach"] == f.reach
    ensures r["connector"] == f.connector && r["temperature"] == f.temperature
    ensures r["power"] == f.power && r["description"] == f.description && r["status"] == f.status
  {
    map["sku" := f.sku, "name" := f.name, "form_factor" := f.formFactor,
        "data_rate" := f.dataRate, "wavelength" := f.wavelength, "reach" := f.reach,
        "connector" := f.connector, "temperature" := f.temperature, "power" := f.power,
        "description" := f.description, "status" := f.status]
  }

  /** The add form's guard: every input is non-empty. */
  predicate AllFilled(f: TransceiverForm)
    ensures AllFilled(f) <==> forall k :: k in FieldNames ==> ToRecord(f)[k] != ""
  {
    && f.sku != "" && f.name != "" && f.formFactor != "" && f.dataRate != ""
    && f.wavelength != "" && f.reach != "" && f.connector != "" && f.temperature != ""
    && f.power != "" && f.description != "" && f.status != ""
  }

  /** A record built by a filled add form has a value, and a non-empty one, for every field. */
  lemma FilledFormGivesFullRecord(f: TransceiverForm)
    requires AllFilled(f)
    ensures forall k :: k in FieldNames ==> k in ToRecord(f) && ToRecord(f)[k] != ""
  {
  }

  /**
   * The edit form's record: the SKU input is disabled and pre-filled with the
   * edited record's SKU, so the record keeps that SKU whatever else changed.
   */
  function EditedRecord(current: Record, f: TransceiverForm): (r: Record)
    requires SkuField in current
    ensures r.Keys == FieldNames
    ensures r[SkuField] == current[SkuField]
  {
    ToRecord(f.(sku := current[SkuField]))
  }

  datatype AddOutcome = MissingFields | DuplicateSku | Added

  datatype PasswordError = FieldsRequired | Mismatch | TooShort

  datatype PasswordOutcome = Rejected(error: PasswordError) | Changed | WrongCurrent

  const MinPasswordLength: nat := 6

  /** The change-password form's checks, in order: all filled, new equals confirmation, long enough. */
  function PasswordFormError(oldPassword: string, newPassword: string, confirmation: string)
    : (e: Option<PasswordError>)
    ensures e.None? <==>
      && oldPassword != "" && newPassword != "" && confirmation != ""
      && newPassword == confirmation && |newPassword| >= MinPasswordLength
    ensures e == Some(FieldsRequired) <==> oldPassword == "" || newPassword == "" || confirmation == ""
    ensures e == Some(Mismatch) <==>
      oldPassword != "" && newPassword != "" && confirmation != "" && newPassword != confirmation
    ensures e == Some(TooShort) <==>
      && oldPassword != "" && newPassword != "" && confirmation != ""
      && newPassword == confirmation && |newPassword| < MinPasswordLength
  {
    if oldPassword == "" || newPassword == "" || confirmation == "" then Some(FieldsRequired)
    else if newPassword != confirmation then Some(Mismatch)
    else if |newPassword| < MinPasswordLength then Some(TooShort)
    else None
  }

  // ---------------------------------------------------------------------
  // Session
  // ---------------------------------------------------------------------

  /** The page's session state and the handlers of the admin panel. */
  class Session {
    /** `st.session_state.authenticated` */
    var authenticated: bool
    /** Whether `show_password_change` is present in the session state. */
    var showPasswordChange: bool

    /** A new browser session starts logged out. */
    constructor ()
      ensures !authenticated && !showPasswordChange
    {
      authenticated := false;
      showPasswordChange := false;
    }

    /**
     * The login form: an empty password is refused without consulting the
     * gate; otherwise the gate decides.
     */
    method SubmitLogin(gate: Auth.Gate, password: string) returns (ok: bool)
      requires !authenticated
      modifies this, gate
      ensures ok == (password != "" && gate.hash(password) == old(gate.Current()))
      ensures authenticated == ok
      ensures showPasswordChange == old(showPasswordChange)
      ensures password == "" ==> gate.stored == old(gate.stored)
      ensures password != "" ==> gate.stored == Some(old(gate.Current()))
    {
      ok := false;
      if password != "" {
        ok := gate.VerifyPassword(password);
      }
      if ok {
        authenticated := true;
      }
    }

    /** The logout button. */
    method Logout()
      requires authenticated
      modifies this
      ensures !authenticated
      ensures showPasswordChange == old(showPasswordChange)
    {
      authenticated := false;
    }

    /** Rendering the admin panel: the change-password form shows once its button was clicked. */
    method ShowPasswordForm(clicked: bool) returns (shown: bool)
      requires authenticated
      modifies this
      ensures shown == (clicked || old(showPasswordChange))
      ensures showPasswordChange == shown
      ensures authenticated
    {
      shown := clicked || showPasswordChange;
      if shown {
        showPasswordChange := true;
      }
    }

    /** Submitting the change-password form: the gate is called only when the form checks pass. */
    method SubmitPasswordChange(gate: Auth.Gate, oldPassword: string, newPassword: string,
                                confirmation: string)
      returns (outcome: PasswordOutcome)
      requires authenticated
      modifies this, gate
      ensures PasswordFormError(oldPassword, newPassword, confirmation).Some? ==>
        && outcome == Rejected(PasswordFormError(oldPassword, newPassword, confirmation).value)
        && gate.stored == old(gate.stored)
      ensures PasswordFormError(oldPassword, newPassword, confirmation).None? ==>
        && (outcome == Changed <==> gate.hash(oldPassword) == old(gate.Current()))
        && (outcome != Changed ==> outcome == WrongCurrent)
        && gate.stored == Some(if outcome == Changed then gate.hash(newPassword) else old(gate.Current()))
      ensures outcome == Changed ==> |newPassword| >= MinPasswordLength && !showPasswordChange
      ensures outcome != Changed ==> showPasswordChange == old(showPasswordChange)
      ensures authenticated
    {
      var error := PasswordFormError(oldPassword, newPassword, confirmation);
      if error.Some? {
        return Rejected(error.value);
      }
      var ok := gate.ChangePassword(oldPassword, newPassword);
      if ok {
        showPasswordChange := false;
        outcome := Changed;
      } else {
        outcome := WrongCurrent;
      }
    }

    /** Submitting the add form: the store is called only when every input is filled. */
    method SubmitAdd(store: Store, f: TransceiverForm) returns (outcome: AddOutcome)
      requires authenticated && store.Valid()
      modifies store
      ensures !AllFilled(f) ==> outcome == MissingFields && store.file == old(store.file)
      ensures AllFilled(f) ==>
        && (outcome == Added <==> !HasSku(old(store.Contents()), f.sku))
        && (outcome != Added ==> outcome == DuplicateSku)
        && store.file == Some(if outcome == Added then old(store.Contents()) + [ToRecord(f)]
                              else old(store.Contents()))
      ensures store.Valid()
    {
      if !AllFilled(f) {
        return MissingFields;
      }
      var ok := store.AddTransceiver(ToRecord(f));
      outcome := if ok then Added else DuplicateSku;
    }

    /**
     * Submitting the edit form for the record `current` that `get_transceiver`
     * returned: the lookup key and the new record's SKU are both the record's
     * own SKU, so an edit never changes the set of stored SKUs.
     */
    method SubmitEdit(store: Store, current: Record, f: TransceiverForm) returns (ok: bool)
      requires authenticated && store.Valid() && SkuField in current
      modifies store
      ensures ok == HasSku(old(store.Contents()), current[SkuField])
      ensures store.Valid()
      ensures Skus(store.Contents()) == Skus(old(store.Contents()))
      ensures UniqueSkus(old(store.Contents())) ==> UniqueSkus(store.Contents())
      ensures ok ==> store.file == Some(old(store.Contents())[
        FirstIndex(old(store.Contents()), current[SkuField]).value := EditedRecord(current, f)])
      ensures ok ==> Lookup(store.Contents(), current[SkuField]) == Some(EditedRecord(current, f))
      ensures !ok ==> store.file == Some(old(store.Contents()))
    {
      var sku := current[SkuField];
      var updated := EditedRecord(current, f);
      ghost var before := store.Contents();
      ok := store.UpdateTransceiver(sku, updated);
      if ok {
        UpdateSameSku(before, sku, updated);
      }
    }
  }
}
