/** scripts/check_registry_append_only.py: what the two checks report and when they raise, stated on
    the entries of the two documents, attribute by attribute. */
module Reports {
  import opened Registry

  // ------------------------------------------------------------------ entries

  /** The entry stands under the key. */
  predicate Carries(check: Check, e: Entry, k: Key) {
    match check
    case Reasons => "reason_code" in e && k == [e["reason_code"]]
    case Caps => "name" in e && "major" in e && k == [e["name"], e["major"]]
  }

  /** The entry has its key attributes, and no list or dictionary among them. */
  predicate Keyed(check: Check, e: Entry) {
    match check
    case Reasons => "reason_code" in e && !e["reason_code"].List? && !e["reason_code"].Dict?
    case Caps =>
      && "name" in e && !e["name"].List? && !e["name"].Dict?
      && "major" in e && !e["major"].List? && !e["major"].Dict?
  }

  /** What is raised for an entry that is not keyed. */
  function Complaint(check: Check, e: Entry): PyError {
    match check
    case Reasons => if "reason_code" !in e then KeyError("reason_code") else TypeError
    case Caps => if "name" !in e then KeyError("name") else if "major" !in e then KeyError("major") else TypeError
  }

  /** The attributes that may not change while the entry is ACTIVE. */
  function FrozenNames(check: Check): seq<string> {
    match check
    case Reasons => ["domain", "class", "severity", "terminal", "user_actionable", "remediation_class", "scope"]
    case Caps => ["name", "major", "security_relevant", "session_critical"]
  }

  predicate HasStatus(e: Entry, s: string) { "status" in e && e["status"] == Str(s) }

  /** The values differ; an absent attribute differs from every value but None. */
  predicate Differs(a: Entry, b: Entry, attr: string) {
    if attr in a && attr in b then a[attr] != b[attr]
    else (attr in a && a[attr] != None) || (attr in b && b[attr] != None)
  }

  /** There is no alias, or a value that counts as false. */
  predicate LacksAlias(e: Entry) {
    "alias_of" in e ==>
      var v := e["alias_of"];
      v == None || v == Num(0.0) || v == Str("") || v == List([]) || v == Dict(map[])
  }

  predicate FirstEntry(check: Check, es: seq<Entry>, i: int, k: Key) {
    0 <= i < |es| && Carries(check, es[i], k) && forall j :: 0 <= j < i ==> !Carries(check, es[j], k)
  }

  predicate LastEntry(check: Check, es: seq<Entry>, i: int, k: Key) {
    0 <= i < |es| && Carries(check, es[i], k) && forall j :: i < j < |es| ==> !Carries(check, es[j], k)
  }

  /** What the step from the old entries to the new ones does wrong. Of several entries under one
      key the last is compared. */
  ghost predicate Wrong(check: Check, os: seq<Entry>, ns: seq<Entry>, v: Violation) {
    match v
    case Removed(k) =>
      && (exists i :: 0 <= i < |os| && Carries(check, os[i], k))
      && forall j :: 0 <= j < |ns| ==> !Carries(check, ns[j], k)
    case Changed(k, attr) =>
      exists i, j :: LastEntry(check, os, i, k) && LastEntry(check, ns, j, k)
                     && HasStatus(os[i], "ACTIVE") && attr in FrozenNames(check) && Differs(os[i], ns[j], attr)
    case UnRetired(k) =>
      && check.Reasons?
      && exists i, j :: LastEntry(check, os, i, k) && LastEntry(check, ns, j, k)
                        && HasStatus(os[i], "RETIRED") && !HasStatus(ns[j], "RETIRED")
    case NoAlias(k) =>
      && check.Reasons?
      && exists i, j :: LastEntry(check, os, i, k) && LastEntry(check, ns, j, k)
                        && HasStatus(ns[j], "DEPRECATED") && LacksAlias(ns[j])
  }

  // --------------------------------------------------------- loading a document

  lemma CarriesKey(check: Check, e: Entry, k: Key)
    ensures Carries(check, e, k) <==> KeyOf(check.KeyAttrs(), e) == Ok(k)
  {
    var attrs := check.KeyAttrs();
    KeyMeans(attrs, e);
    KeyNames(check);
    hide KeyOf;
    var r := KeyOf(attrs, e);
    if r.Ok? {
      assert attrs[0] in e && r.value[0] == e[attrs[0]];
      if check.Caps? { assert attrs[1] in e && r.value[1] == e[attrs[1]]; }
      assert Carries(check, e, r.value);
    }
  }

  lemma KeyNames(check: Check)
    ensures check.Reasons? ==> check.KeyAttrs() == ["reason_code"]
    ensures check.Caps? ==> check.KeyAttrs() == ["name", "major"]
    ensures check.Frozen() == FrozenNames(check)
  {
  }

  lemma KeyedExactly(check: Check, e: Entry)
    ensures Keyed(check, e) <==> Indexable(check.KeyAttrs(), e)
  {
    KeyNames(check);
    var attrs := check.KeyAttrs();
    if Indexable(attrs, e) {
      assert attrs[0] in e && Hashable(e[attrs[0]]);
      if check.Caps? { assert attrs[1] in e && Hashable(e[attrs[1]]); }
    }
  }

  /** A document loads exactly when it has its list and every entry is keyed. */
  lemma LoadsExactly(check: Check, d: Document)
    ensures Load(check, d).Ok? <==> d.Entries? && forall i :: 0 <= i < |d.es| ==> Keyed(check, d.es[i])
  {
    if d.Entries? {
      IndexedExactly(check.KeyAttrs(), d.es, |d.es|);
      forall e ensures Keyed(check, e) <==> Indexable(check.KeyAttrs(), e) { KeyedExactly(check, e); }
      hide Keyed, Indexable;
    }
  }

  /** The first entry that is not keyed decides what is raised. */
  lemma RaisesExactly(check: Check, d: Document, x: PyError)
    ensures Load(check, d) == Raises(x) <==>
            if d.Missing? then x == KeyError(if check.Reasons? then "reason_codes" else "capabilities")
            else
              exists i :: 0 <= i < |d.es| && !Keyed(check, d.es[i]) && x == Complaint(check, d.es[i])
                          && forall j :: 0 <= j < i ==> Keyed(check, d.es[j])
  {
    if d.Entries? {
      var i := FirstRaise(check, d.es, |d.es|);
    }
  }

  /** The old document is loaded first. */
  lemma CheckRaises(check: Check, old_: Document, new_: Document, x: PyError)
    ensures Checked(check, old_, new_) == Raises(x) <==>
            Load(check, old_) == Raises(x) || (Load(check, old_).Ok? && Load(check, new_) == Raises(x))
  {
  }

  lemma KeyRaises(check: Check, e: Entry)
    ensures KeyOf(check.KeyAttrs(), e).Raises? ==> KeyOf(check.KeyAttrs(), e).error == Complaint(check, e)
    ensures KeyOf(check.KeyAttrs(), e).Ok? && !AllHashable(KeyOf(check.KeyAttrs(), e).value) ==>
              Complaint(check, e) == TypeError
    ensures Keyed(check, e) <==> KeyOf(check.KeyAttrs(), e).Ok? && AllHashable(KeyOf(check.KeyAttrs(), e).value)
  {
    KeyedExactly(check, e);
    KeyIndexable(check.KeyAttrs(), e);
    KeyMeans(check.KeyAttrs(), e);
    KeyNames(check);
    if check.Caps? && "name" in e { assert KeyOf(["name", "major"], e).Raises? ==> "major" !in e; }
  }

  lemma {:induction false} FirstRaise(check: Check, es: seq<Entry>, n: nat) returns (i: nat)
    requires n <= |es|
    ensures IndexUpto(check.KeyAttrs(), es, n).Ok? ==> i == n
    ensures IndexUpto(check.KeyAttrs(), es, n).Raises? ==>
              i < n && !Keyed(check, es[i]) && IndexUpto(check.KeyAttrs(), es, n).error == Complaint(check, es[i])
    ensures i <= n && forall j :: 0 <= j < i ==> Keyed(check, es[j])
  {
    i := n;
    if n > 0 {
      i := FirstRaise(check, es, n - 1);
      KeyRaises(check, es[n - 1]);
      hide KeyOf, Keyed, Complaint, AllHashable, Index.Valid;
      if IndexUpto(check.KeyAttrs(), es, n - 1).Ok? && Keyed(check, es[n - 1]) { i := n; }
    }
  }

  // ------------------------------------------------------------ the two dictionaries

  lemma {:induction false} FindLast(check: Check, es: seq<Entry>, k: Key, n: nat) returns (i: nat)
    requires n <= |es| && exists j :: 0 <= j < n && Carries(check, es[j], k)
    ensures i < n && Carries(check, es[i], k) && forall j :: i < j < n ==> !Carries(check, es[j], k)
  {
    if Carries(check, es[n - 1], k) { i := n - 1; } else { i := FindLast(check, es, k, n - 1); }
  }

  /** The dictionary of a loaded document. */
  lemma Dictionary(check: Check, es: seq<Entry>, x: Index, k: Key)
    requires Load(check, Entries(es)) == Ok(x)
    ensures k in x.at <==> exists i :: 0 <= i < |es| && Carries(check, es[i], k)
    ensures k in x.at <==> exists i :: LastEntry(check, es, i, k)
    ensures forall i :: LastEntry(check, es, i, k) ==> k in x.at && x.at[k] == es[i]
  {
    var attrs := check.KeyAttrs();
    forall e ensures Carries(check, e, k) <==> KeyOf(attrs, e) == Ok(k) { CarriesKey(check, e, k); }
    KeysOfEntries(attrs, es, k, |es|);
    hide KeyOf, Carries, IndexUpto;
    forall i | LastEntry(check, es, i, k) ensures k in x.at && x.at[k] == es[i] {
      LastEntryWins(attrs, es, k, |es|, i);
    }
    if k in x.at { var i := FindLast(check, es, k, |es|); assert LastEntry(check, es, i, k); }
  }

  lemma AttrsAgree(a: Entry, b: Entry, attr: string, s: string)
    ensures Status(a, s) <==> HasStatus(a, s)
    ensures Get(a, attr) != Get(b, attr) <==> Differs(a, b, attr)
    ensures !Truthy(Get(a, "alias_of")) <==> LacksAlias(a)
  {
  }

  /** Exactly what is wrong is reported. */
  lemma ReportedExactly(check: Check, os: seq<Entry>, ns: seq<Entry>, errs: seq<Violation>, v: Violation)
    requires Checked(check, Entries(os), Entries(ns)) == Ok(errs)
    ensures v in errs <==> Wrong(check, os, ns, v)
  {
    var o, n := Load(check, Entries(os)).value, Load(check, Entries(ns)).value;
    ReportsExactly(check, o, n, |o.order|, v);
    assert o.order[..|o.order|] == o.order;
    assert v in errs <==> Violates(check, o, n, v);
    hide Load, Checked;
    WrongExactly(check, os, ns, o, n, v);
  }

  /** A step is accepted exactly when every entry is keyed and nothing is wrong. */
  lemma AcceptedMeans(check: Check, os: seq<Entry>, ns: seq<Entry>)
    ensures Accepts(check, Entries(os), Entries(ns)) <==>
            && (forall i :: 0 <= i < |os| ==> Keyed(check, os[i]))
            && (forall i :: 0 <= i < |ns| ==> Keyed(check, ns[i]))
            && forall v :: !Wrong(check, os, ns, v)
  {
    LoadsExactly(check, Entries(os));
    LoadsExactly(check, Entries(ns));
    var r := Checked(check, Entries(os), Entries(ns));
    hide Load, Wrong, Keyed;
    if r.Ok? {
      forall v ensures v in r.value <==> Wrong(check, os, ns, v) { ReportedExactly(check, os, ns, r.value, v); }
      if r.value != [] { assert r.value[0] in r.value; }
    }
  }

  lemma WrongExactly(check: Check, os: seq<Entry>, ns: seq<Entry>, o: Index, n: Index, v: Violation)
    requires Load(check, Entries(os)) == Ok(o) && Load(check, Entries(ns)) == Ok(n)
    ensures Violates(check, o, n, v) <==> Wrong(check, os, ns, v)
  {
    Dictionary(check, os, o, v.key);
    Dictionary(check, ns, n, v.key);
    KeyNames(check);
    forall a, b, attr, s
      ensures Status(a, s) <==> HasStatus(a, s)
      ensures Get(a, attr) != Get(b, attr) <==> Differs(a, b, attr)
      ensures !Truthy(Get(a, "alias_of")) <==> LacksAlias(a)
    {
      AttrsAgree(a, b, attr, s);
    }
    hide Load, Carries, Status, HasStatus, Get, Differs, Truthy, LacksAlias, LastEntry, FrozenNames;
  }

  // ----------------------------------------------------------------- the order

  /** The index of the first occurrence of the attribute. */
  function Position(attrs: seq<string>, attr: string): nat {
    if attrs == [] || attrs[0] == attr then 0 else 1 + Position(attrs[1..], attr)
  }

  /** The place of a report among those of its key: attributes in the order listed, then the end of
      a retirement, then the missing alias. */
  function Place(check: Check, v: Violation): nat {
    match v
    case Removed(_) => 0
    case Changed(_, attr) => Position(FrozenNames(check), attr)
    case UnRetired(_) => 7
    case NoAlias(_) => 8
  }

  /** Each report is about a key and stands before the next by its place. */
  ghost predicate Ranked(check: Check, vs: seq<Violation>, k: Key, lo: nat, hi: nat) {
    && (forall p :: 0 <= p < |vs| ==> vs[p].key == k && lo <= Place(check, vs[p]) < hi)
    && forall p, q :: 0 <= p < q < |vs| ==> Place(check, vs[p]) < Place(check, vs[q])
  }

  lemma RankedConcat(check: Check, vs: seq<Violation>, ws: seq<Violation>, k: Key, lo: nat, mid: nat, hi: nat)
    requires Ranked(check, vs, k, lo, mid) && Ranked(check, ws, k, mid, hi) && lo <= mid <= hi
    ensures Ranked(check, vs + ws, k, lo, hi)
  {
    hide Place;
  }

  lemma {:induction false} PositionAt(attrs: seq<string>, j: nat)
    requires j < |attrs| && forall i :: 0 <= i < j ==> attrs[i] != attrs[j]
    ensures Position(attrs, attrs[j]) == j
  {
    if j > 0 {
      assert attrs[0] != attrs[j];
      PositionAt(attrs[1..], j - 1);
    }
  }

  lemma NamesDistinct(check: Check, i: nat, j: nat)
    requires i < j < |FrozenNames(check)|
    ensures FrozenNames(check)[i] != FrozenNames(check)[j]
  {
    var names := FrozenNames(check);
    if |names[i]| == |names[j]| {
      assert "severity"[0] == 's' && "terminal"[0] == 't';
      assert "name"[0] == 'n';
    }
  }

  lemma OneRanked(check: Check, k: Key, j: nat)
    requires j < |FrozenNames(check)|
    ensures Ranked(check, [Changed(k, FrozenNames(check)[j])], k, j, j + 1)
  {
    var names := FrozenNames(check);
    forall i | 0 <= i < j ensures names[i] != names[j] { NamesDistinct(check, i, j); }
    PositionAt(names, j);
    hide FrozenNames, Position;
  }

  lemma {:induction false} ChangesRanked(check: Check, k: Key, a: Entry, b: Entry, j: nat)
    requires j <= |FrozenNames(check)|
    ensures Ranked(check, Changes(k, a, b, FrozenNames(check), j), k, 0, j)
  {
    var names := FrozenNames(check);
    hide FrozenNames, Get, Place;
    if j > 0 {
      ChangesRanked(check, k, a, b, j - 1);
      OneRanked(check, k, j - 1);
      var vs := Changes(k, a, b, names, j - 1);
      var ws := if Get(a, names[j - 1]) != Get(b, names[j - 1]) then [Changed(k, names[j - 1])] else [];
      RankedConcat(check, vs, ws, k, 0, j - 1, j);
    }
  }

  lemma KeyRanked(check: Check, k: Key, o: Index, n: Index)
    requires k in o.at
    ensures Ranked(check, if check.Reasons? then ReasonReport(k, o, n) else CapReport(k, o, n), k, 0, 9)
  {
    if k in n.at {
      var a, b, names := o.at[k], n.at[k], FrozenNames(check);
      KeyNames(check);
      ChangesRanked(check, k, a, b, |names|);
      if check.Reasons? {
        var ps := if Status(a, "ACTIVE") then Changes(k, a, b, names, |names|) else [];
        var qs := if Status(a, "RETIRED") && !Status(b, "RETIRED") then [UnRetired(k)] else [];
        var rs := if Status(b, "DEPRECATED") && !Truthy(Get(b, "alias_of")) then [NoAlias(k)] else [];
        hide Status, Truthy, Get, Changes;
        RankedConcat(check, ps, qs, k, 0, 7, 8);
        RankedConcat(check, ps + qs, rs, k, 0, 8, 9);
      }
    }
  }

  /** The entries at which the keys first occur. */
  ghost predicate FirstAt(check: Check, es: seq<Entry>, order: seq<Key>, fs: seq<nat>, n: nat) {
    && |fs| == |order|
    && (forall p :: 0 <= p < |fs| ==> fs[p] < n && FirstEntry(check, es, fs[p], order[p]))
    && forall p, q :: 0 <= p < q < |fs| ==> fs[p] < fs[q]
  }

  lemma {:induction false} FirstOccurrences(check: Check, es: seq<Entry>, n: nat) returns (fs: seq<nat>)
    requires n <= |es| && IndexUpto(check.KeyAttrs(), es, n).Ok?
    ensures FirstAt(check, es, IndexUpto(check.KeyAttrs(), es, n).value.order, fs, n)
  {
    if n == 0 { return []; }
    assert IndexUpto(check.KeyAttrs(), es, n - 1).Ok? by { IndexOrder(check.KeyAttrs(), es, n); }
    hide *;
    fs := FirstOccurrences(check, es, n - 1);
    fs := OneMoreFirst(check, es, n, fs);
  }

  lemma OneMoreFirst(check: Check, es: seq<Entry>, n: nat, gs: seq<nat>) returns (fs: seq<nat>)
    requires 0 < n <= |es| && IndexUpto(check.KeyAttrs(), es, n).Ok? && IndexUpto(check.KeyAttrs(), es, n - 1).Ok?
    requires FirstAt(check, es, IndexUpto(check.KeyAttrs(), es, n - 1).value.order, gs, n - 1)
    ensures FirstAt(check, es, IndexUpto(check.KeyAttrs(), es, n).value.order, fs, n)
  {
    var attrs := check.KeyAttrs();
    IndexOrder(attrs, es, n);
    var x, k := IndexUpto(attrs, es, n - 1).value, KeyOf(attrs, es[n - 1]).value;
    FirstNext(check, es, x.order, gs, n);
    hide IndexUpto, KeyOf, FirstAt, FirstEntry;
    fs := gs;
    if k !in x.at {
      NewKey(check, es, n, k);
      fs := gs + [n - 1];
    }
  }

  lemma IndexOrder(attrs: seq<string>, es: seq<Entry>, n: nat)
    requires 0 < n <= |es| && IndexUpto(attrs, es, n).Ok?
    ensures IndexUpto(attrs, es, n - 1).Ok? && KeyOf(attrs, es[n - 1]).Ok?
    ensures var x, k := IndexUpto(attrs, es, n - 1).value, KeyOf(attrs, es[n - 1]).value;
            IndexUpto(attrs, es, n).value.order == if k in x.at then x.order else x.order + [k]
    ensures IndexUpto(attrs, es, 0).value.order == []
  {
  }

  lemma NewKey(check: Check, es: seq<Entry>, n: nat, k: Key)
    requires 0 < n <= |es| && IndexUpto(check.KeyAttrs(), es, n - 1).Ok? && KeyOf(check.KeyAttrs(), es[n - 1]) == Ok(k)
    requires k !in IndexUpto(check.KeyAttrs(), es, n - 1).value.at
    ensures FirstEntry(check, es, n - 1, k)
  {
    var attrs := check.KeyAttrs();
    KeysOfEntries(attrs, es, k, n - 1);
    hide IndexUpto, KeyOf, Carries;
    forall e ensures Carries(check, e, k) <==> KeyOf(attrs, e) == Ok(k) { CarriesKey(check, e, k); }
  }

  lemma FirstNext(check: Check, es: seq<Entry>, order: seq<Key>, fs: seq<nat>, n: nat)
    requires 0 < n <= |es| && FirstAt(check, es, order, fs, n - 1)
    ensures FirstAt(check, es, order, fs, n)
    ensures forall k :: FirstEntry(check, es, n - 1, k) ==> FirstAt(check, es, order + [k], fs + [n - 1], n)
  {
    hide FirstEntry;
  }

  /** The positions of the keys of the reports. */
  ghost predicate Placed(check: Check, vs: seq<Violation>, order: seq<Key>, ps: seq<nat>, c: nat)
    requires c <= |order|
  {
    && |ps| == |vs|
    && (forall i :: 0 <= i < |vs| ==> ps[i] < c && vs[i].key == order[ps[i]])
    && forall i, j :: 0 <= i < j < |vs| ==>
         ps[i] < ps[j] || (ps[i] == ps[j] && Place(check, vs[i]) < Place(check, vs[j]))
  }

  lemma PlacedConcat(check: Check, vs: seq<Violation>, ws: seq<Violation>, order: seq<Key>, ps: seq<nat>, c: nat)
    requires 0 < c <= |order| && Placed(check, vs, order, ps, c - 1) && Ranked(check, ws, order[c - 1], 0, 9)
    ensures Placed(check, vs + ws, order, ps + seq(|ws|, i => c - 1), c)
  {
    hide Place;
    var us, qs := vs + ws, ps + seq(|ws|, i => c - 1);
    forall i | 0 <= i < |us| ensures qs[i] < c && us[i].key == order[qs[i]] {
      if i >= |vs| { assert us[i] == ws[i - |vs|]; }
    }
    forall i, j | 0 <= i < j < |us|
      ensures qs[i] < qs[j] || (qs[i] == qs[j] && Place(check, us[i]) < Place(check, us[j]))
    {
      if i >= |vs| { assert us[i] == ws[i - |vs|] && us[j] == ws[j - |vs|]; }
    }
  }

  lemma {:induction false} ReportKeys(check: Check, o: Index, n: Index, c: nat) returns (ps: seq<nat>)
    requires o.Valid() && c <= |o.order|
    ensures Placed(check, Report(check, o, n, c), o.order, ps, c)
  {
    ps := [];
    if c > 0 {
      var k := o.order[c - 1];
      assert k in o.order;
      KeyRanked(check, k, o, n);
      hide Place, ReasonReport, CapReport, Index.Valid, Placed, Ranked;
      ps := ReportKeys(check, o, n, c - 1);
      var vs := if check.Reasons? then ReasonReport(k, o, n) else CapReport(k, o, n);
      PlacedConcat(check, Report(check, o, n, c - 1), vs, o.order, ps, c);
      ps := ps + seq(|vs|, i => c - 1);
    }
  }

  /** The reports come in the order in which the keys first occur among the old entries, those of
      one key by their place, none twice. */
  lemma ReportedInOrder(check: Check, os: seq<Entry>, ns: seq<Entry>, errs: seq<Violation>, p: nat, q: nat)
    requires Checked(check, Entries(os), Entries(ns)) == Ok(errs) && p < q < |errs|
    ensures exists i, j ::
              && FirstEntry(check, os, i, errs[p].key) && FirstEntry(check, os, j, errs[q].key)
              && (i < j || (i == j && Place(check, errs[p]) < Place(check, errs[q])))
  {
    var o, n := Load(check, Entries(os)).value, Load(check, Entries(ns)).value;
    var fs := FirstOccurrences(check, os, |os|);
    var ps := ReportKeys(check, o, n, |o.order|);
    hide Report, FirstEntry, Place, IndexUpto;
    var i, j := fs[ps[p]], fs[ps[q]];
  }
}
