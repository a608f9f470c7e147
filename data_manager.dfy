/**
 * The record store of the transceiver catalog (data_manager.py): an ordered
 * list of transceiver records kept as the whole content of one JSON file.
 * The file is the field `file` of class `Store`; `None` means that the file
 * does not exist yet.
 */
module DataManager {
  import opened Wrappers
  import opened Ordering

  /** A transceiver record: field name to value (sku, name, form_factor, ...). */
  type Record = map<string, string>

  const SkuField: string := "sku"

  /** Every record has a SKU: the store reads `t['sku']` of each one. */
  predicate AllKeyed(rs: seq<Record>) {
    forall r :: r in rs ==> SkuField in r
  }

  /** Some stored record has this SKU. */
  predicate HasSku(rs: seq<Record>, sku: string)
    requires AllKeyed(rs)
  {
    exists r :: r in rs && r[SkuField] == sku
  }

  /** No two records share a SKU. */
  ghost predicate UniqueSkus(rs: seq<Record>)
    requires AllKeyed(rs)
  {
    forall i, j :: 0 <= i < j < |rs| ==> rs[i][SkuField] != rs[j][SkuField]
  }

  /** `k` is the position of the first record with this SKU. */
  ghost predicate IsFirstMatch(rs: seq<Record>, sku: string, k: nat)
    requires AllKeyed(rs)
  {
    && k < |rs|
    && rs[k][SkuField] == sku
    && forall j :: 0 <= j < k ==> rs[j][SkuField] != sku
  }

  /** The position of the first record with this SKU, if any. */
  function FirstIndex(rs: seq<Record>, sku: string): (k: Option<nat>)
    requires AllKeyed(rs)
    ensures k.Some? ==> IsFirstMatch(rs, sku, k.value)
    ensures k.None? <==> !HasSku(rs, sku)
    decreases |rs|
  {
    if rs == [] then None
    else if rs[0][SkuField] == sku then Some(0)
    else
      match FirstIndex(rs[1..], sku)
      case None =>
        assert forall r :: r in rs ==> r == rs[0] || r in rs[1..];
        None
      case Some(k) =>
        assert rs[1..][k] == rs[k + 1];
        Some(k + 1)
  }

  /** The first record with this SKU, if any (`get_transceiver` on a loaded list). */
  function Lookup(rs: seq<Record>, sku: string): (t: Option<Record>)
    requires AllKeyed(rs)
    ensures t.None? <==> !HasSku(rs, sku)
    ensures t.Some? ==> t.value in rs && t.value[SkuField] == sku
  {
    match FirstIndex(rs, sku)
    case None => None
    case Some(k) => Some(rs[k])
  }

  /**
   * The scan that `update_transceiver` and `get_transceiver` both run:
   * walk the list in order and stop at the first record with this SKU.
   */
  method FindFirst(rs: seq<Record>, sku: string) returns (k: Option<nat>)
    requires AllKeyed(rs)
    ensures k.Some? ==> IsFirstMatch(rs, sku, k.value)
    ensures k.None? ==> !HasSku(rs, sku)
    ensures k == FirstIndex(rs, sku)
  {
    var i := 0;
    while i < |rs|
      invariant 0 <= i <= |rs|
      invariant forall j :: 0 <= j < i ==> rs[j][SkuField] != sku
    {
      if rs[i][SkuField] == sku {
        k := Some(i);
        return;
      }
      i := i + 1;
    }
    k := None;
  }

  /** The list with every record of this SKU removed (the comprehension of `delete_transceiver`). */
  function Without(rs: seq<Record>, sku: string): (kept: seq<Record>)
    requires AllKeyed(rs)
    ensures AllKeyed(kept)
    ensures forall r :: r in kept <==> r in rs && r[SkuField] != sku
    ensures |kept| <= |rs|
    ensures |kept| < |rs| <==> HasSku(rs, sku)
    decreases |rs|
  {
    if rs == [] then []
    else
      var tail := Without(rs[1..], sku);
      assert forall r :: r in rs <==> r == rs[0] || r in rs[1..];
      if rs[0][SkuField] == sku then tail else [rs[0]] + tail
  }

  /** The values of `field` in the records that have it, in list order (`df[field].dropna()`). */
  function ValuesOf(rs: seq<Record>, field: string): (vs: seq<string>)
    ensures forall v :: v in vs <==> exists r :: r in rs && field in r && r[field] == v
    decreases |rs|
  {
    if rs == [] then []
    else
      var tail := ValuesOf(rs[1..], field);
      assert forall r :: r in rs <==> r == rs[0] || r in rs[1..];
      if field in rs[0] then [rs[0][field]] + tail else tail
  }

  /**
   * `get_unique_values(field)`: the distinct values of `field`, sorted.
   * Records without the field are skipped; an empty string is a value.
   */
  function UniqueValues(rs: seq<Record>, field: string): (vs: seq<string>)
    ensures StrictlyAscending(vs)
    ensures forall v :: v in vs <==> exists r :: r in rs && field in r && r[field] == v
  {
    SortedDistinct(ValuesOf(rs, field))
  }

  /** The set of SKUs in the list. */
  ghost function Skus(rs: seq<Record>): set<string>
    requires AllKeyed(rs)
  {
    set r | r in rs :: r[SkuField]
  }

  // ---- get_transceiver ----

  /** `Lookup` finds a record of this SKU exactly when one is stored; it is the first one. */
  lemma LookupFindsFirst(rs: seq<Record>, sku: string)
    requires AllKeyed(rs)
    ensures Lookup(rs, sku).None? <==> !HasSku(rs, sku)
    ensures Lookup(rs, sku).Some? ==>
      exists k: nat :: IsFirstMatch(rs, sku, k) && Lookup(rs, sku).value == rs[k]
  {
  }

  /** With unique SKUs, `Lookup` returns `t` exactly when `t` is stored under this SKU. */
  lemma LookupUnique(rs: seq<Record>, sku: string, t: Record)
    requires AllKeyed(rs) && UniqueSkus(rs)
    ensures Lookup(rs, sku) == Some(t) <==> t in rs && t[SkuField] == sku
  {
  }

  // ---- add_transceiver ----

  /** After a successful add, looking up the new SKU gives back the added record. */
  lemma AddThenLookup(rs: seq<Record>, t: Record)
    requires AllKeyed(rs) && SkuField in t && !HasSku(rs, t[SkuField])
    ensures AllKeyed(rs + [t])
    ensures Lookup(rs + [t], t[SkuField]) == Some(t)
  {
  }

  /** Adding a fresh SKU keeps SKUs unique. */
  lemma AddKeepsUnique(rs: seq<Record>, t: Record)
    requires AllKeyed(rs) && UniqueSkus(rs)
    requires SkuField in t && !HasSku(rs, t[SkuField])
    ensures AllKeyed(rs + [t]) && UniqueSkus(rs + [t])
  {
  }

  // ---- update_transceiver ----

  /**
   * Replacing the first record of `sku` by one that carries the same SKU
   * keeps the set of SKUs and their uniqueness, and a lookup of `sku` then
   * gives the new record.
   */
  lemma UpdateSameSku(rs: seq<Record>, sku: string, updated: Record)
    requires AllKeyed(rs) && HasSku(rs, sku)
    requires SkuField in updated && updated[SkuField] == sku
    ensures var s := rs[FirstIndex(rs, sku).value := updated];
      && AllKeyed(s)
      && Skus(s) == Skus(rs)
      && Lookup(s, sku) == Some(updated)
      && (UniqueSkus(rs) ==> UniqueSkus(s))
  {
    var k := FirstIndex(rs, sku).value;
    var s := rs[k := updated];
    assert forall r :: r in s ==> r == updated || r in rs;
    assert forall i :: 0 <= i < |s| ==> s[i][SkuField] == rs[i][SkuField];
    assert Skus(s) == Skus(rs) by {
      forall x | x in Skus(rs) ensures x in Skus(s) {
        var r :| r in rs && r[SkuField] == x;
        var i :| 0 <= i < |rs| && rs[i] == r;
        assert s[i] in s;
      }
      forall x | x in Skus(s) ensures x in Skus(rs) {
        var r :| r in s && r[SkuField] == x;
        var i :| 0 <= i < |s| && s[i] == r;
        assert rs[i] in rs;
      }
    }
    assert IsFirstMatch(s, sku, k);
    assert FirstIndex(s, sku) == Some(k);
  }

  // ---- delete_transceiver ----

  /** The records kept keep their order: deleting from a concatenation deletes from each part. */
  lemma {:induction false} WithoutConcat(a: seq<Record>, b: seq<Record>, sku: string)
    requires AllKeyed(a) && AllKeyed(b)
    ensures AllKeyed(a + b)
    ensures Without(a + b, sku) == Without(a, sku) + Without(b, sku)
    decreases |a|
  {
    assert forall r :: r in a + b ==> r in a || r in b;
    if a != [] {
      assert (a + b)[1..] == a[1..] + b;
      WithoutConcat(a[1..], b, sku);
    } else {
      assert a + b == b;
    }
  }

  /** When no record has the SKU, the comprehension keeps the list as it is. */
  lemma {:induction false} WithoutNoMatch(rs: seq<Record>, sku: string)
    requires AllKeyed(rs) && !HasSku(rs, sku)
    ensures Without(rs, sku) == rs
    decreases |rs|
  {
    if rs != [] {
      assert rs[0] in rs;
      WithoutNoMatch(rs[1..], sku);
      assert rs == [rs[0]] + rs[1..];
    }
  }

  /** A record in front of a list keeps SKUs unique when its SKU is not in the list. */
  lemma UniqueCons(x: Record, w: seq<Record>)
    requires SkuField in x && AllKeyed(w) && UniqueSkus(w)
    requires forall r :: r in w ==> r[SkuField] != x[SkuField]
    ensures AllKeyed([x] + w) && UniqueSkus([x] + w)
  {
  }

  /** Deleting keeps SKUs unique. */
  lemma {:induction false} WithoutKeepsUnique(rs: seq<Record>, sku: string)
    requires AllKeyed(rs) && UniqueSkus(rs)
    ensures UniqueSkus(Without(rs, sku))
    decreases |rs|
  {
    if rs != [] {
      var tail := Without(rs[1..], sku);
      WithoutKeepsUnique(rs[1..], sku);
      if rs[0][SkuField] != sku {
        forall r | r in tail ensures r[SkuField] != rs[0][SkuField] {
          var m :| 0 <= m < |rs[1..]| && rs[1..][m] == r;
          assert rs[m + 1] == r;
        }
        UniqueCons(rs[0], tail);
      }
    }
  }

  /** After a delete, nothing is found under the deleted SKU. */
  lemma DeletedNotFound(rs: seq<Record>, sku: string)
    requires AllKeyed(rs)
    ensures Lookup(Without(rs, sku), sku) == None
  {
  }

  // ---- get_unique_values ----

  /** The list is exactly Python's `sorted(set(...))`: nothing else is strictly ascending with the same values. */
  lemma UniqueValuesCanonical(rs: seq<Record>, field: string, vs: seq<string>)
    requires StrictlyAscending(vs)
    requires forall v :: v in vs <==> exists r :: r in rs && field in r && r[field] == v
    ensures vs == UniqueValues(rs, field)
  {
    AscendingUnique(vs, UniqueValues(rs, field));
  }

  class Store {
    /** Content of the data file; `None` while the file does not exist. */
    var file: Option<seq<Record>>

    /** The list a load would return: the file's content, or `[]` for an absent file. */
    function Contents(): seq<Record>
      reads this
    {
      file.GetOr([])
    }

    predicate Valid()
      reads this
    {
      AllKeyed(Contents())
    }

    constructor (existing: Option<seq<Record>>)
      ensures file == existing
      ensures Valid() <==> AllKeyed(existing.GetOr([]))
    {
      file := existing;
    }

    /** `ensure_data_file`: create the file holding `[]` if it is absent. */
    method EnsureDataFile()
      modifies this
      ensures old(file).None? ==> file == Some([])
      ensures old(file).Some? ==> file == old(file)
    {
      if file.None? {
        file := Some([]);
      }
    }

    /** `load_transceivers`: ensure the file, then return its content. */
    method LoadTransceivers() returns (rs: seq<Record>)
      modifies this
      ensures rs == old(Contents())
      ensures file == Some(rs)
    {
      EnsureDataFile();
      rs := file.value;
    }

    /** `save_transceivers`: the file becomes exactly this list. */
    method SaveTransceivers(rs: seq<Record>)
      modifies this
      ensures file == Some(rs)
    {
      EnsureDataFile();
      file := Some(rs);
    }

    /** `add_transceiver`: append unless the SKU is already stored. */
    method AddTransceiver(t: Record) returns (ok: bool)
      requires Valid() && SkuField in t
      modifies this
      ensures ok == !HasSku(old(Contents()), t[SkuField])
      ensures file == Some(if ok then old(Contents()) + [t] else old(Contents()))
      ensures Valid()
    {
      var rs := LoadTransceivers();
      if HasSku(rs, t[SkuField]) {
        return false;
      }
      rs := rs + [t];
      SaveTransceivers(rs);
      ok := true;
    }

    /** `update_transceiver`: replace the first record with this SKU by `updated`. */
    method UpdateTransceiver(sku: string, updated: Record) returns (ok: bool)
      requires Valid()
      modifies this
      ensures ok == HasSku(old(Contents()), sku)
      ensures ok ==> file == Some(old(Contents())[FirstIndex(old(Contents()), sku).value := updated])
      ensures !ok ==> file == Some(old(Contents()))
      ensures Valid() <==> !ok || SkuField in updated
    {
      var rs := LoadTransceivers();
      var k := FindFirst(rs, sku);
      if k.None? {
        return false;
      }
      ghost var was := rs;
      rs := rs[k.value := updated];
      assert rs[k.value] == updated;
      assert forall r :: r in rs ==> r == updated || r in was;
      SaveTransceivers(rs);
      ok := true;
    }

    /** `delete_transceiver`: drop every record with this SKU; save only if one was dropped. */
    method DeleteTransceiver(sku: string) returns (ok: bool)
      requires Valid()
      modifies this
      ensures ok == HasSku(old(Contents()), sku)
      ensures file == Some(if ok then Without(old(Contents()), sku) else old(Contents()))
      ensures Valid()
    {
      var rs := LoadTransceivers();
      var kept := Without(rs, sku);
      if |kept| < |rs| {
        SaveTransceivers(kept);
        return true;
      }
      ok := false;
    }

    /** `get_transceiver`: the first record with this SKU, or `None`. */
    method GetTransceiver(sku: string) returns (t: Option<Record>)
      requires Valid()
      modifies this
      ensures t == Lookup(old(Contents()), sku)
      ensures file == Some(old(Contents()))
    {
      var rs := LoadTransceivers();
      var k := FindFirst(rs, sku);
      t := if k.Some? then Some(rs[k.value]) else None;
    }

    /** `get_unique_values`: the sorted distinct values of one field over the stored list. */
    method GetUniqueValues(field: string) returns (vs: seq<string>)
      modifies this
      ensures vs == UniqueValues(old(Contents()), field)
      ensures file == Some(old(Contents()))
    {
      var rs := LoadTransceivers();
      vs := UniqueValues(rs, field);
    }
  }
}
