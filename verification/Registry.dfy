/** scripts/check_registry_append_only.py: one step of a registry's history is accepted or
    refused, and what acceptance of every step means for whole histories. */
module Registry {
  import opened Seqs

  // ---------------------------------------------------------- values and entries

  /** A JSON value under Python's equality: true, 1 and 1.0 are one number. */
  datatype PyVal = None | Num(r: real) | Str(s: string) | List(vs: seq<PyVal>) | Dict(kvs: map<string, PyVal>)

  type Entry = map<string, PyVal>

  /** e.get(attr) */
  function Get(e: Entry, attr: string): PyVal { if attr in e then e[attr] else None }

  predicate Truthy(v: PyVal) {
    match v
    case None => false
    case Num(r) => r != 0.0
    case Str(s) => s != ""
    case List(vs) => vs != []
    case Dict(kvs) => kvs != map[]
  }

  predicate Hashable(v: PyVal) { !v.List? && !v.Dict? }

  predicate AllHashable(vs: seq<PyVal>) { forall i :: 0 <= i < |vs| ==> Hashable(vs[i]) }

  datatype PyError = KeyError(key: string) | TypeError

  datatype Outcome<+T> = Ok(value: T) | Raises(error: PyError) {
    predicate IsFailure() { Raises? }
    function PropagateFailure<U>(): Outcome<U>
      requires Raises?
    {
      Raises(error)
    }
    function Extract(): T
      requires Ok?
    {
      value
    }
  }

  // ------------------------------------------------------------------ the index

  /** A dictionary key: the value of reason_code, or the pair (name, major). */
  type Key = seq<PyVal>

  /** The key of an entry, read attribute by attribute. */
  function KeyOf(attrs: seq<string>, e: Entry): Outcome<Key> {
    if attrs == [] then Ok([])
    else if attrs[0] !in e then Raises(KeyError(attrs[0]))
    else
      var rest :- KeyOf(attrs[1..], e);
      Ok([e[attrs[0]]] + rest)
  }

  /** Reading the key fails exactly when an attribute is missing, naming a missing one. */
  lemma {:induction false} KeyMeans(attrs: seq<string>, e: Entry)
    ensures KeyOf(attrs, e).Ok? <==> forall i :: 0 <= i < |attrs| ==> attrs[i] in e
    ensures KeyOf(attrs, e).Ok? ==>
              var k := KeyOf(attrs, e).value;
              |k| == |attrs| && forall i :: 0 <= i < |attrs| ==> k[i] == e[attrs[i]]
    ensures KeyOf(attrs, e).Raises? ==>
              var x := KeyOf(attrs, e).error;
              x.KeyError? && x.key in attrs && x.key !in e
  {
    if attrs != [] {
      KeyMeans(attrs[1..], e);
      assert forall i :: 1 <= i < |attrs| ==> attrs[i] == attrs[1..][i - 1];
      assert forall i :: 0 <= i < |attrs| - 1 ==> attrs[1..][i] == attrs[i + 1];
    }
  }

  /** An insertion-ordered dictionary from keys to entries. */
  datatype Index = Index(order: seq<Key>, at: map<Key, Entry>) {
    ghost predicate Valid() {
      && (forall k :: k in order <==> k in at)
      && forall i, j :: 0 <= i < j < |order| ==> order[i] != order[j]
    }
  }

  /** The dictionary comprehension over the first `n` entries. */
  function IndexUpto(attrs: seq<string>, es: seq<Entry>, n: nat): (x: Outcome<Index>)
    requires n <= |es|
    ensures x.Ok? ==> x.value.Valid()
  {
    if n == 0 then Ok(Index([], map[]))
    else
      var x :- IndexUpto(attrs, es, n - 1);
      var k :- KeyOf(attrs, es[n - 1]);
      if !AllHashable(k) then Raises(TypeError)
      else Ok(Index(if k in x.at then x.order else x.order + [k], x.at[k := es[n - 1]]))
  }

  function IndexOf(attrs: seq<string>, es: seq<Entry>): (x: Outcome<Index>)
    ensures x.Ok? ==> x.value.Valid()
  {
    IndexUpto(attrs, es, |es|)
  }

  /** The entry has every key attribute, with a value a dictionary key can hold. */
  predicate Indexable(attrs: seq<string>, e: Entry) {
    forall c :: 0 <= c < |attrs| ==> attrs[c] in e && Hashable(e[attrs[c]])
  }

  /** Entry `i` is the last of the first `n` with the key. */
  predicate LastWith(attrs: seq<string>, es: seq<Entry>, k: Key, n: nat, i: nat)
    requires n <= |es|
  {
    && i < n && KeyOf(attrs, es[i]) == Ok(k)
    && forall j :: i < j < n ==> KeyOf(attrs, es[j]) != Ok(k)
  }

  lemma {:induction false} IndexedExactly(attrs: seq<string>, es: seq<Entry>, n: nat)
    requires n <= |es|
    ensures IndexUpto(attrs, es, n).Ok? <==> forall j :: 0 <= j < n ==> Indexable(attrs, es[j])
  {
    if n == 0 { return; }
    OneMoreIndexed(attrs, es, n);
    hide *;
    IndexedExactly(attrs, es, n - 1);
  }

  lemma OneMoreIndexed(attrs: seq<string>, es: seq<Entry>, n: nat)
    requires 0 < n <= |es|
    ensures IndexUpto(attrs, es, n).Ok? <==> IndexUpto(attrs, es, n - 1).Ok? && Indexable(attrs, es[n - 1])
  {
    KeyIndexable(attrs, es[n - 1]);
    hide Indexable, KeyOf, AllHashable;
  }

  lemma KeyIndexable(attrs: seq<string>, e: Entry)
    ensures Indexable(attrs, e) <==> KeyOf(attrs, e).Ok? && AllHashable(KeyOf(attrs, e).value)
  {
    KeyMeans(attrs, e);
    hide KeyOf;
  }

  /** The keys of the dictionary are the keys of the entries. */
  lemma {:induction false} KeysOfEntries(attrs: seq<string>, es: seq<Entry>, k: Key, n: nat)
    requires n <= |es| && IndexUpto(attrs, es, n).Ok?
    ensures k in IndexUpto(attrs, es, n).value.at <==> exists j :: 0 <= j < n && KeyOf(attrs, es[j]) == Ok(k)
  {
    if n == 0 { return; }
    IndexNext(attrs, es, n);
    hide KeyOf, IndexUpto, Index.Valid;
    KeysOfEntries(attrs, es, k, n - 1);
    MapPut(IndexUpto(attrs, es, n - 1).value.at, KeyOf(attrs, es[n - 1]).value, es[n - 1], k);
    if KeyOf(attrs, es[n - 1]) == Ok(k) { assert exists j :: 0 <= j < n && KeyOf(attrs, es[j]) == Ok(k); }
  }

  /** The dictionary maps a key to the last entry that has it. */
  lemma {:induction false} LastEntryWins(attrs: seq<string>, es: seq<Entry>, k: Key, n: nat, i: nat)
    requires n <= |es| && IndexUpto(attrs, es, n).Ok? && LastWith(attrs, es, k, n, i)
    ensures k in IndexUpto(attrs, es, n).value.at && IndexUpto(attrs, es, n).value.at[k] == es[i]
  {
    IndexNext(attrs, es, n);
    hide KeyOf, IndexUpto, Index.Valid;
    MapPut(IndexUpto(attrs, es, n - 1).value.at, KeyOf(attrs, es[n - 1]).value, es[n - 1], k);
    if i < n - 1 { LastEntryWins(attrs, es, k, n - 1, i); }
  }

  lemma MapPut<K, V>(m: map<K, V>, key: K, v: V, k: K)
    ensures k in m[key := v] <==> k == key || k in m
    ensures m[key := v][key] == v && (k != key && k in m ==> m[key := v][k] == m[k])
  {
  }

  lemma IndexNext(attrs: seq<string>, es: seq<Entry>, n: nat)
    requires 0 < n <= |es| && IndexUpto(attrs, es, n).Ok?
    ensures IndexUpto(attrs, es, n - 1).Ok? && KeyOf(attrs, es[n - 1]).Ok?
    ensures IndexUpto(attrs, es, n).value.at
            == IndexUpto(attrs, es, n - 1).value.at[KeyOf(attrs, es[n - 1]).value := es[n - 1]]
  {
  }

  // --------------------------------------------------------------- the two checks

  const REASON_KEY: seq<string> := ["reason_code"]
  const CAP_KEY: seq<string> := ["name", "major"]

  const FROZEN_REASON_ATTRS: seq<string> :=
    ["domain", "class", "severity", "terminal", "user_actionable", "remediation_class", "scope"]
  const FROZEN_CAP_ATTRS: seq<string> := ["name", "major", "security_relevant", "session_critical"]

  /** A registry document: the list under its one key, or None when the key is missing. */
  datatype Document = Missing | Entries(es: seq<Entry>)

  datatype Violation =
    | Removed(key: Key)
    | Changed(key: Key, attr: string)
    | UnRetired(key: Key)
    | NoAlias(key: Key)

  predicate Status(e: Entry, s: string) { Get(e, "status") == Str(s) }

  /** What is wrong with the step from `o` to `n`, stated for each kind of report. */
  predicate Violates(check: Check, o: Index, n: Index, v: Violation) {
    && v.key in o.at
    && match v
       case Removed(k) => k !in n.at
       case Changed(k, attr) =>
         k in n.at && attr in check.Frozen() && Status(o.at[k], "ACTIVE") && Get(o.at[k], attr) != Get(n.at[k], attr)
       case UnRetired(k) =>
         check.Reasons? && k in n.at && Status(o.at[k], "RETIRED") && !Status(n.at[k], "RETIRED")
       case NoAlias(k) =>
         check.Reasons? && k in n.at && Status(n.at[k], "DEPRECATED") && !Truthy(Get(n.at[k], "alias_of"))
  }

  /** The Changed reports for the first `j` attributes. */
  function Changes(k: Key, a: Entry, b: Entry, frozen: seq<string>, j: nat): seq<Violation>
    requires j <= |frozen|
  {
    if j == 0 then []
    else Changes(k, a, b, frozen, j - 1) +
         if Get(a, frozen[j - 1]) != Get(b, frozen[j - 1]) then [Changed(k, frozen[j - 1])] else []
  }

  function ReasonReport(k: Key, o: Index, n: Index): seq<Violation>
    requires k in o.at
  {
    if k !in n.at then [Removed(k)]
    else
      var a, b := o.at[k], n.at[k];
      (if Status(a, "ACTIVE") then Changes(k, a, b, FROZEN_REASON_ATTRS, |FROZEN_REASON_ATTRS|) else [])
      + (if Status(a, "RETIRED") && !Status(b, "RETIRED") then [UnRetired(k)] else [])
      + (if Status(b, "DEPRECATED") && !Truthy(Get(b, "alias_of")) then [NoAlias(k)] else [])
  }

  function CapReport(k: Key, o: Index, n: Index): seq<Violation>
    requires k in o.at
  {
    if k !in n.at then [Removed(k)]
    else if Status(o.at[k], "ACTIVE")
    then Changes(k, o.at[k], n.at[k], FROZEN_CAP_ATTRS, |FROZEN_CAP_ATTRS|)
    else []
  }

  /** The reports for the first `c` keys, in the order of the old dictionary. */
  function Report(check: Check, o: Index, n: Index, c: nat): seq<Violation>
    requires o.Valid() && c <= |o.order|
  {
    if c == 0 then []
    else
      var k := o.order[c - 1];
      assert k in o.order;
      Report(check, o, n, c - 1) + if check.Reasons? then ReasonReport(k, o, n) else CapReport(k, o, n)
  }

  datatype Check = Reasons | Caps {
    function KeyAttrs(): seq<string> { if Reasons? then REASON_KEY else CAP_KEY }
    function ListName(): string { if Reasons? then "reason_codes" else "capabilities" }
    function Frozen(): seq<string> { if Reasons? then FROZEN_REASON_ATTRS else FROZEN_CAP_ATTRS }
  }

  /** Both dictionaries, the old one first; a missing list, a missing key attribute or an
      unhashable key raises. */
  function Load(check: Check, d: Document): (x: Outcome<Index>)
    ensures x.Ok? ==> x.value.Valid()
  {
    if d.Missing? then Raises(KeyError(check.ListName())) else IndexOf(check.KeyAttrs(), d.es)
  }

  function Checked(check: Check, old_: Document, new_: Document): Outcome<seq<Violation>> {
    var o :- Load(check, old_);
    var n :- Load(check, new_);
    Ok(Report(check, o, n, |o.order|))
  }

  /** The loop over the frozen attributes. */
  method AppendChanges(before: seq<Violation>, k: Key, a: Entry, b: Entry, frozen: seq<string>)
    returns (errs: seq<Violation>)
    ensures errs == before + Changes(k, a, b, frozen, |frozen|)
  {
    errs := before;
    for j := 0 to |frozen|
      invariant errs == before + Changes(k, a, b, frozen, j)
    {
      if Get(a, frozen[j]) != Get(b, frozen[j]) {
        Assoc(before, Changes(k, a, b, frozen, j), [Changed(k, frozen[j])]);
        errs := errs + [Changed(k, frozen[j])];
      }
    }
  }

  lemma ThreeParts<T>(a: seq<T>, p: seq<T>, q: seq<T>, r: seq<T>)
    ensures a + (p + q + r) == a + p + q + r
    ensures p == [] ==> a + p == a
    ensures q == [] ==> a + p + q == a + p
    ensures r == [] ==> a + p + q + r == a + p + q
  {
  }

  method CheckReasons(old_: Document, new_: Document) returns (r: Outcome<seq<Violation>>)
    ensures r == Checked(Reasons, old_, new_)
  {
    hide Get, Truthy, IndexOf;
    var o :- Load(Reasons, old_);
    var n :- Load(Reasons, new_);
    var errs: seq<Violation> := [];
    for c := 0 to |o.order|
      invariant errs == Report(Reasons, o, n, c)
    {
      var code := o.order[c];
      assert code in o.order;
      ghost var before := errs;
      if code !in n.at {
        errs := errs + [Removed(code)];
        continue;
      }
      var a, b := o.at[code], n.at[code];
      if Status(a, "ACTIVE") {
        errs := AppendChanges(errs, code, a, b, FROZEN_REASON_ATTRS);
      }
      if Status(a, "RETIRED") && !Status(b, "RETIRED") {
        errs := errs + [UnRetired(code)];
      }
      if Status(b, "DEPRECATED") && !Truthy(Get(b, "alias_of")) {
        errs := errs + [NoAlias(code)];
      }
      ThreeParts(before,
        if Status(a, "ACTIVE") then Changes(code, a, b, FROZEN_REASON_ATTRS, |FROZEN_REASON_ATTRS|) else [],
        if Status(a, "RETIRED") && !Status(b, "RETIRED") then [UnRetired(code)] else [],
        if Status(b, "DEPRECATED") && !Truthy(Get(b, "alias_of")) then [NoAlias(code)] else []);
    }
    return Ok(errs);
  }

  method CheckCaps(old_: Document, new_: Document) returns (r: Outcome<seq<Violation>>)
    ensures r == Checked(Caps, old_, new_)
  {
    hide Get, IndexOf;
    var o :- Load(Caps, old_);
    var n :- Load(Caps, new_);
    var errs: seq<Violation> := [];
    for c := 0 to |o.order|
      invariant errs == Report(Caps, o, n, c)
    {
      var key := o.order[c];
      assert key in o.order;
      ghost var before := errs;
      if key !in n.at {
        errs := errs + [Removed(key)];
        continue;
      }
      var a, b := o.at[key], n.at[key];
      if Status(a, "ACTIVE") {
        errs := AppendChanges(errs, key, a, b, FROZEN_CAP_ATTRS);
      }
      assert errs == before + CapReport(key, o, n);
    }
    return Ok(errs);
  }

  // ---------------------------------------------------------- what is reported

  lemma {:induction false} ChangesExactly(k: Key, a: Entry, b: Entry, frozen: seq<string>, j: nat, v: Violation)
    requires j <= |frozen|
    ensures v in Changes(k, a, b, frozen, j) <==>
            v.Changed? && v.key == k && v.attr in frozen[..j] && Get(a, v.attr) != Get(b, v.attr)
  {
    if j > 0 {
      ChangesExactly(k, a, b, frozen, j - 1, v);
      Next(frozen, j - 1);
    }
  }

  lemma KeyReportExactly(check: Check, k: Key, o: Index, n: Index, v: Violation)
    requires k in o.at
    ensures v in (if check.Reasons? then ReasonReport(k, o, n) else CapReport(k, o, n))
            <==> v.key == k && Violates(check, o, n, v)
  {
    if k in n.at {
      var f := check.Frozen();
      ChangesExactly(k, o.at[k], n.at[k], f, |f|, v);
      assert f[..|f|] == f;
    }
  }

  /** Exactly the violations are reported. */
  lemma {:induction false} ReportsExactly(check: Check, o: Index, n: Index, c: nat, v: Violation)
    requires o.Valid() && c <= |o.order|
    ensures v in Report(check, o, n, c) <==> v.key in o.order[..c] && Violates(check, o, n, v)
  {
    if c > 0 {
      var k := o.order[c - 1];
      assert k in o.order;
      ReportsExactly(check, o, n, c - 1, v);
      KeyReportExactly(check, k, o, n, v);
      Next(o.order, c - 1);
      hide Violates, ReasonReport, CapReport, Index.Valid;
    }
  }

  // ------------------------------------------------------------------ acceptance

  /** The check reports nothing. */
  predicate Accepts(check: Check, old_: Document, new_: Document) {
    Checked(check, old_, new_) == Ok([])
  }

  /** The frozen attributes of a code are the same in both dictionaries. */
  predicate SameFrozen(check: Check, x: Index, y: Index, k: Key)
    requires k in x.at && k in y.at
  {
    forall attr :: attr in check.Frozen() ==> Get(x.at[k], attr) == Get(y.at[k], attr)
  }

  /** What one accepted step guarantees for a code. */
  predicate KeyAccepted(check: Check, o: Index, n: Index, k: Key)
    requires k in o.at
  {
    && k in n.at
    && (Status(o.at[k], "ACTIVE") ==> SameFrozen(check, o, n, k))
    && (check.Reasons? ==>
          && (Status(o.at[k], "RETIRED") ==> Status(n.at[k], "RETIRED"))
          && (Status(n.at[k], "DEPRECATED") ==> Truthy(Get(n.at[k], "alias_of"))))
  }

  predicate Loads(check: Check, d: Document) { Load(check, d).Ok? }

  /** What one accepted step guarantees, for every code. */
  predicate Step(check: Check, o: Index, n: Index) {
    forall k :: k in o.at ==> KeyAccepted(check, o, n, k)
  }

  /** A step is accepted exactly when both registries load and every code keeps its guarantee. */
  lemma AcceptedExactly(check: Check, old_: Document, new_: Document)
    ensures Accepts(check, old_, new_) <==>
            && Loads(check, old_) && Loads(check, new_)
            && Step(check, Load(check, old_).value, Load(check, new_).value)
  {
    if Loads(check, old_) && Loads(check, new_) {
      var o, n := Load(check, old_).value, Load(check, new_).value;
      var errs := Report(check, o, n, |o.order|);
      assert o.order[..|o.order|] == o.order;
      forall v ensures v in errs <==> Violates(check, o, n, v) { ReportsExactly(check, o, n, |o.order|, v); }
      if errs == [] {
        forall k | k in o.at ensures KeyAccepted(check, o, n, k) { NothingReported(check, o, n, k); }
      } else {
        var v := errs[0];
        assert v in errs && Violates(check, o, n, v);
      }
    }
  }

  lemma NothingReported(check: Check, o: Index, n: Index, k: Key)
    requires k in o.at && forall v :: !Violates(check, o, n, v)
    ensures KeyAccepted(check, o, n, k)
  {
    assert !Violates(check, o, n, Removed(k));
    forall attr | attr in check.Frozen() && Status(o.at[k], "ACTIVE")
      ensures Get(o.at[k], attr) == Get(n.at[k], attr)
    {
      assert !Violates(check, o, n, Changed(k, attr));
    }
    assert !Violates(check, o, n, UnRetired(k));
    assert !Violates(check, o, n, NoAlias(k));
  }

  /** A code ACTIVE in `x`, no longer ACTIVE in `y`, whose frozen attribute differs in `z`. */
  predicate ChangesAfterRetreat(check: Check, x: Index, y: Index, z: Index, k: Key)
    requires k in x.at && k in y.at && k in z.at
  {
    Status(x.at[k], "ACTIVE") && !Status(y.at[k], "ACTIVE") && !SameFrozen(check, y, z, k)
  }

  lemma KeyComposes(check: Check, x: Index, y: Index, z: Index, k: Key)
    requires k in x.at && KeyAccepted(check, x, y, k) && KeyAccepted(check, y, z, k)
    ensures KeyAccepted(check, x, z, k) <==> !ChangesAfterRetreat(check, x, y, z, k)
  {
    hide Truthy;
  }

  /** Acceptance of two steps gives acceptance of both together exactly when no code that was
      ACTIVE first and then not ACTIVE changes a frozen attribute in the second step. */
  lemma StepsCompose(check: Check, d0: Document, d1: Document, d2: Document)
    requires Accepts(check, d0, d1) && Accepts(check, d1, d2)
    ensures Loads(check, d0) && Loads(check, d1) && Loads(check, d2)
    ensures var x, y, z := Load(check, d0).value, Load(check, d1).value, Load(check, d2).value;
            && (forall k :: k in x.at ==> k in y.at && k in z.at)
            && (Accepts(check, d0, d2) <==> forall k :: k in x.at ==> !ChangesAfterRetreat(check, x, y, z, k))
  {
    AcceptedExactly(check, d0, d1);
    AcceptedExactly(check, d1, d2);
    AcceptedExactly(check, d0, d2);
    hide Accepts, Load, ChangesAfterRetreat;
    var x, y, z := Load(check, d0).value, Load(check, d1).value, Load(check, d2).value;
    forall k | k in x.at
      ensures k in y.at && k in z.at
      ensures KeyAccepted(check, x, z, k) <==> !ChangesAfterRetreat(check, x, y, z, k)
    {
      assert KeyAccepted(check, x, y, k);
      assert KeyAccepted(check, y, z, k);
      KeyComposes(check, x, y, z, k);
    }
    hide KeyAccepted;
  }

  // -------------------------------------------------------------------- histories

  /** Every consecutive pair of registries is accepted. */
  predicate Chain(check: Check, ds: seq<Document>) {
    |ds| >= 2 && forall i :: 0 <= i < |ds| - 1 ==> Accepts(check, ds[i], ds[i + 1])
  }

  /** The dictionaries of a chain, each a step from the one before. */
  predicate Steps(check: Check, xs: seq<Index>) {
    forall i :: 0 <= i < |xs| - 1 ==> Step(check, xs[i], xs[i + 1])
  }

  function Dictionaries(check: Check, ds: seq<Document>): (xs: seq<Index>)
    requires forall i :: 0 <= i < |ds| ==> Loads(check, ds[i])
    ensures |xs| == |ds| && forall i :: 0 <= i < |ds| ==> Loads(check, ds[i]) && xs[i] == Load(check, ds[i]).value
  {
    seq(|ds|, i requires 0 <= i < |ds| => assert Loads(check, ds[i]); Load(check, ds[i]).value)
  }

  /** A chain is accepted exactly when its registries load and their dictionaries are steps. */
  lemma ChainExactly(check: Check, ds: seq<Document>)
    requires |ds| >= 2
    ensures Chain(check, ds) <==>
            && (forall i :: 0 <= i < |ds| ==> Loads(check, ds[i]))
            && Steps(check, Dictionaries(check, ds))
  {
    hide Load, Accepts, Step;
    forall i | 0 <= i < |ds| - 1
      ensures Accepts(check, ds[i], ds[i + 1]) <==>
              && Loads(check, ds[i]) && Loads(check, ds[i + 1])
              && Step(check, Load(check, ds[i]).value, Load(check, ds[i + 1]).value)
    {
      AcceptedExactly(check, ds[i], ds[i + 1]);
    }
    if Chain(check, ds) {
      forall i | 0 <= i < |ds| ensures Loads(check, ds[i]) {
        if i + 1 < |ds| { assert Accepts(check, ds[i], ds[i + 1]); }
        else { assert Accepts(check, ds[i - 1], ds[i - 1 + 1]); }
      }
    }
  }

  /** The code is ACTIVE in every registry from `i` up to the one before `j`. */
  predicate ActiveFrom(xs: seq<Index>, i: nat, j: nat, k: Key)
    requires i <= j < |xs|
  {
    forall n :: i <= n < j ==> k in xs[n].at && Status(xs[n].at[k], "ACTIVE")
  }

  /** What registry `i` of a history guarantees for a code in a later registry `j`. */
  predicate Kept(check: Check, xs: seq<Index>, i: nat, j: nat, k: Key)
    requires i <= j < |xs| && k in xs[i].at
  {
    && k in xs[j].at
    && (ActiveFrom(xs, i, j, k) ==> SameFrozen(check, xs[i], xs[j], k))
    && (check.Reasons? && Status(xs[i].at[k], "RETIRED") ==> Status(xs[j].at[k], "RETIRED"))
    && (check.Reasons? && i < j && Status(xs[j].at[k], "DEPRECATED") ==> Truthy(Get(xs[j].at[k], "alias_of")))
  }

  /** Along an accepted chain codes are never lost, RETIRED is final, a code that is deprecated
      after its first registry has an alias, and a code ACTIVE in every registry from `i` up to
      the one before `j` has the same frozen attributes in `i` and in `j`. */
  lemma {:induction false} ChainKeeps(check: Check, xs: seq<Index>, i: nat, j: nat, k: Key)
    requires Steps(check, xs) && i <= j < |xs| && k in xs[i].at
    ensures Kept(check, xs, i, j, k)
    decreases j
  {
    if i < j {
      ChainKeeps(check, xs, i, j - 1, k);
      assert Step(check, xs[j - 1], xs[j - 1 + 1]);
      KeptNext(check, xs, i, j, k);
    }
  }

  lemma KeptNext(check: Check, xs: seq<Index>, i: nat, j: nat, k: Key)
    requires i < j < |xs| && k in xs[i].at && Kept(check, xs, i, j - 1, k)
    requires KeyAccepted(check, xs[j - 1], xs[j], k)
    ensures Kept(check, xs, i, j, k)
  {
    hide Truthy, Get;
    if ActiveFrom(xs, i, j, k) { assert ActiveFrom(xs, i, j - 1, k); }
  }

  /** A history of accepted steps is accepted from end to end exactly when every code ACTIVE in
      the first registry has in the last one the frozen attributes it had in the second. */
  lemma ChainEndToEnd(check: Check, xs: seq<Index>)
    requires Steps(check, xs) && |xs| >= 2
    ensures forall k :: k in xs[0].at ==> k in xs[1].at && k in xs[|xs| - 1].at
    ensures Step(check, xs[0], xs[|xs| - 1]) <==>
            forall k :: k in xs[0].at && Status(xs[0].at[k], "ACTIVE") ==> SameFrozen(check, xs[1], xs[|xs| - 1], k)
  {
    var z := |xs| - 1;
    forall k | k in xs[0].at
      ensures k in xs[1].at && k in xs[z].at
      ensures KeyAccepted(check, xs[0], xs[z], k) <==>
              (Status(xs[0].at[k], "ACTIVE") ==> SameFrozen(check, xs[1], xs[z], k))
    {
      assert Step(check, xs[0], xs[0 + 1]);
      assert KeyAccepted(check, xs[0], xs[1], k);
      ChainKeeps(check, xs, 0, z, k);
      hide Truthy, Get, ActiveFrom;
      if Status(xs[0].at[k], "ACTIVE") { FrozenTransfer(check, xs[0], xs[1], xs[z], k); }
    }
    hide KeyAccepted;
  }

  lemma FrozenTransfer(check: Check, x: Index, y: Index, z: Index, k: Key)
    requires k in x.at && k in y.at && k in z.at && SameFrozen(check, x, y, k)
    ensures SameFrozen(check, x, z, k) <==> SameFrozen(check, y, z, k)
  {
  }

  // ------------------------------------------------------- steps that do not compose

  function Reason(code: string, status: string, domain: string): Entry {
    map["reason_code" := Str(code), "status" := Str(status), "domain" := Str(domain), "alias_of" := Str("NEW")]
  }

  lemma OneReason(e: Entry)
    requires "reason_code" in e && Hashable(e["reason_code"])
    ensures Load(Reasons, Entries([e])) == Ok(Index([[e["reason_code"]]], map[[e["reason_code"]] := e]))
  {
    KeyMeans(REASON_KEY, e);
    var k := KeyOf(REASON_KEY, e);
    assert forall i :: 0 <= i < |REASON_KEY| ==> REASON_KEY[i] == "reason_code";
    assert k.Ok?;
    assert k.value == [e["reason_code"]];
    var x := IndexUpto(REASON_KEY, [e], 1);
    assert IndexUpto(REASON_KEY, [e], 0) == Ok(Index([], map[]));
    assert x == Ok(Index([] + [k.value], map[][k.value := e]));
    assert [] + [k.value] == [k.value];
  }

  /** A code is deprecated, then made ACTIVE again with another domain: both steps are accepted
      though a frozen attribute of an ACTIVE code has changed. */
  lemma ReactivationChangesFrozen()
    ensures var d0, d1, d2 := Entries([Reason("R", "ACTIVE", "A")]), Entries([Reason("R", "DEPRECATED", "A")]),
                              Entries([Reason("R", "ACTIVE", "B")]);
            Accepts(Reasons, d0, d1) && Accepts(Reasons, d1, d2) && !Accepts(Reasons, d0, d2)
  {
    var e0, e1, e2 := Reason("R", "ACTIVE", "A"), Reason("R", "DEPRECATED", "A"), Reason("R", "ACTIVE", "B");
    OneReason(e0);
    OneReason(e1);
    OneReason(e2);
    var k := [Str("R")];
    AcceptedExactly(Reasons, Entries([e0]), Entries([e1]));
    AcceptedExactly(Reasons, Entries([e1]), Entries([e2]));
    AcceptedExactly(Reasons, Entries([e0]), Entries([e2]));
    hide Load, Accepts;
    ReasonSteps(e0, e1, e2, k);
  }

  lemma ReasonSteps(e0: Entry, e1: Entry, e2: Entry, k: Key)
    requires e0 == Reason("R", "ACTIVE", "A") && e1 == Reason("R", "DEPRECATED", "A") && e2 == Reason("R", "ACTIVE", "B")
    ensures var x, y, z := Index([k], map[k := e0]), Index([k], map[k := e1]), Index([k], map[k := e2]);
            Step(Reasons, x, y) && Step(Reasons, y, z) && !Step(Reasons, x, z)
  {
    var x, y, z := Index([k], map[k := e0]), Index([k], map[k := e1]), Index([k], map[k := e2]);
    assert FROZEN_REASON_ATTRS[0] == "domain" && "domain" in Reasons.Frozen();
    assert "status" !in FROZEN_REASON_ATTRS;
    assert "A"[0] != "B"[0];
    assert Get(x.at[k], "domain") != Get(z.at[k], "domain");
    assert !SameFrozen(Reasons, x, z, k);
    assert !KeyAccepted(Reasons, x, z, k);
  }

  /** A retired code is given another domain: the step is accepted, because frozen attributes are
      compared only while the code is ACTIVE. */
  lemma RetiredCodeRedefined()
    ensures Accepts(Reasons, Entries([Reason("R", "RETIRED", "A")]), Entries([Reason("R", "RETIRED", "B")]))
    ensures Get(Reason("R", "RETIRED", "A"), "domain") != Get(Reason("R", "RETIRED", "B"), "domain")
  {
    var e0, e1 := Reason("R", "RETIRED", "A"), Reason("R", "RETIRED", "B");
    OneReason(e0);
    OneReason(e1);
    AcceptedExactly(Reasons, Entries([e0]), Entries([e1]));
    hide Load, Accepts;
    var k := [Str("R")];
    var x, y := Index([k], map[k := e0]), Index([k], map[k := e1]);
    assert Status(y.at[k], "RETIRED") && "A"[0] != "B"[0];
    assert KeyAccepted(Reasons, x, y, k);
  }

  // ------------------------------------------- what one accepted step protects

  /** The attribute of the code is the same in the later registry. */
  predicate Preserves(check: Check, d: Document, d2: Document, k: Key, attr: string) {
    && Loads(check, d) && Loads(check, d2)
    && k in Load(check, d).value.at && k in Load(check, d2).value.at
    && Get(Load(check, d).value.at[k], attr) == Get(Load(check, d2).value.at[k], attr)
  }

  /** Every accepted next registry keeps a frozen attribute of a code exactly when the code is
      ACTIVE now, or the attribute is part of the key. */
  lemma ProtectedExactly(check: Check, d: Document, k: Key, attr: string)
    requires Loads(check, d) && k in Load(check, d).value.at && attr in check.Frozen()
    ensures (forall d2 :: Accepts(check, d, d2) ==> Preserves(check, d, d2, k, attr)) <==>
            Status(Load(check, d).value.at[k], "ACTIVE") || attr in check.KeyAttrs()
  {
    var x := Load(check, d).value;
    if Status(x.at[k], "ACTIVE") || attr in check.KeyAttrs() {
      forall d2 | Accepts(check, d, d2) ensures Preserves(check, d, d2, k, attr) {
        AcceptedExactly(check, d, d2);
        assert KeyAccepted(check, x, Load(check, d2).value, k);
        if attr in check.KeyAttrs() { SameKeyAttr(check, d, d2, k, attr); }
      }
    } else {
      var d2 := Redefined(check, d, k, attr);
    }
  }

  /** Entries under one key agree on the key attributes. */
  lemma SameKeyAttr(check: Check, d: Document, d2: Document, k: Key, attr: string)
    requires Loads(check, d) && Loads(check, d2) && attr in check.KeyAttrs()
    requires k in Load(check, d).value.at && k in Load(check, d2).value.at
    ensures Get(Load(check, d).value.at[k], attr) == Get(Load(check, d2).value.at[k], attr)
  {
    var attrs := check.KeyAttrs();
    EntryHasKey(attrs, d.es, k, |d.es|);
    EntryHasKey(attrs, d2.es, k, |d2.es|);
    KeyMeans(attrs, Load(check, d).value.at[k]);
    KeyMeans(attrs, Load(check, d2).value.at[k]);
    hide KeyOf, IndexUpto;
    var i :| 0 <= i < |attrs| && attrs[i] == attr;
  }

  lemma {:induction false} EntryHasKey(attrs: seq<string>, es: seq<Entry>, k: Key, n: nat)
    requires n <= |es| && IndexUpto(attrs, es, n).Ok? && k in IndexUpto(attrs, es, n).value.at
    ensures KeyOf(attrs, IndexUpto(attrs, es, n).value.at[k]) == Ok(k)
  {
    IndexNext(attrs, es, n);
    var key := KeyOf(attrs, es[n - 1]).value;
    MapPut(IndexUpto(attrs, es, n - 1).value.at, key, es[n - 1], k);
    if k == key {
      assert IndexUpto(attrs, es, n).value.at[k] == es[n - 1];
    } else {
      hide KeyOf, IndexUpto, Index.Valid;
      EntryHasKey(attrs, es, k, n - 1);
    }
  }

  /** Another value than `v`. */
  function Other(v: PyVal): PyVal { if v == None then Str("") else None }

  /** The entry with an alias, and with the attribute changed if its key is `k`. */
  function Fix(attrs: seq<string>, e: Entry, k: Key, attr: string): Entry {
    var e1 := e["alias_of" := Str("X")];
    if KeyOf(attrs, e) == Ok(k) then e1[attr := Other(Get(e, attr))] else e1
  }

  function FixAll(attrs: seq<string>, es: seq<Entry>, k: Key, attr: string): (fs: seq<Entry>)
    ensures |fs| == |es| && forall i :: 0 <= i < |es| ==> fs[i] == Fix(attrs, es[i], k, attr)
  {
    seq(|es|, i requires 0 <= i < |es| => Fix(attrs, es[i], k, attr))
  }

  lemma {:induction false} KeyFrame(attrs: seq<string>, e: Entry, f: Entry)
    requires forall i :: 0 <= i < |attrs| ==> (attrs[i] in e <==> attrs[i] in f)
    requires forall i :: 0 <= i < |attrs| && attrs[i] in e ==> e[attrs[i]] == f[attrs[i]]
    ensures KeyOf(attrs, e) == KeyOf(attrs, f)
  {
    if attrs != [] {
      assert forall i :: 0 <= i < |attrs| - 1 ==> attrs[1..][i] == attrs[i + 1];
      KeyFrame(attrs[1..], e, f);
    }
  }

  lemma FixKeepsKey(attrs: seq<string>, e: Entry, k: Key, attr: string)
    requires "alias_of" !in attrs && attr !in attrs
    ensures KeyOf(attrs, Fix(attrs, e, k, attr)) == KeyOf(attrs, e)
  {
    hide KeyOf;
    assert forall i :: 0 <= i < |attrs| ==> attrs[i] in attrs;
    KeyFrame(attrs, e, Fix(attrs, e, k, attr));
  }

  /** Fixing every entry fixes every dictionary value and keeps the keys. */
  lemma {:induction false} IndexFixed(attrs: seq<string>, es: seq<Entry>, n: nat, k: Key, attr: string, c: Key)
    requires "alias_of" !in attrs && attr !in attrs && n <= |es|
    ensures var x, y := IndexUpto(attrs, es, n), IndexUpto(attrs, FixAll(attrs, es, k, attr), n);
            && (x.Ok? <==> y.Ok?)
            && (x.Ok? ==> (c in x.value.at <==> c in y.value.at))
            && (x.Ok? && c in x.value.at ==> y.value.at[c] == Fix(attrs, x.value.at[c], k, attr))
  {
    if n > 0 {
      var fs := FixAll(attrs, es, k, attr);
      IndexFixed(attrs, es, n - 1, k, attr, c);
      FixKeepsKey(attrs, es[n - 1], k, attr);
      assert fs[n - 1] == Fix(attrs, es[n - 1], k, attr);
      hide KeyOf, Fix, FixAll, AllHashable, Index.Valid;
      var x, y, key := IndexUpto(attrs, es, n - 1), IndexUpto(attrs, fs, n - 1), KeyOf(attrs, es[n - 1]);
      if x.Ok? && key.Ok? {
        MapPut(x.value.at, key.value, es[n - 1], c);
        MapPut(y.value.at, key.value, fs[n - 1], c);
      }
    }
  }

  /** The witness: an accepted next registry with the attribute changed. */
  lemma Redefined(check: Check, d: Document, k: Key, attr: string) returns (d2: Document)
    requires Loads(check, d) && k in Load(check, d).value.at && attr in check.Frozen()
    requires !Status(Load(check, d).value.at[k], "ACTIVE") && attr !in check.KeyAttrs()
    ensures Accepts(check, d, d2) && !Preserves(check, d, d2, k, attr)
  {
    var attrs := check.KeyAttrs();
    d2 := Entries(FixAll(attrs, d.es, k, attr));
    PlainAttr(check, attr);
    IndexFixed(attrs, d.es, |d.es|, k, attr, k);
    EntryHasKey(attrs, d.es, k, |d.es|);
    var x, y := Load(check, d).value, Load(check, d2).value;
    hide KeyOf, IndexUpto, FixAll;
    forall c | c in x.at ensures KeyAccepted(check, x, y, c) {
      IndexFixed(attrs, d.es, |d.es|, k, attr, c);
      EntryHasKey(attrs, d.es, c, |d.es|);
      FixAccepted(check, x, y, k, attr, c);
    }
    AcceptedExactly(check, d, d2);
  }

  /** Neither the status nor the alias is a frozen or a key attribute. */
  lemma PlainAttr(check: Check, attr: string)
    requires attr in check.Frozen()
    ensures attr != "alias_of" && attr != "status"
    ensures "alias_of" !in check.KeyAttrs()
  {
    assert "alias_of"[0] == 'a' && "status"[0] == 's' && "status"[1] == 't';
    FrozenStart(check, attr);
    assert "reason_code"[0] == 'r' && "name"[0] == 'n' && "major"[0] == 'm';
  }

  /** How the frozen attributes begin. */
  lemma FrozenStart(check: Check, attr: string)
    requires attr in check.Frozen()
    ensures |attr| > 1 && attr[0] in {'d', 'c', 's', 't', 'u', 'r', 'n', 'm'} && (attr[0] == 's' ==> attr[1] in {'e', 'c'})
  {
    var frozen := check.Frozen();
    var i :| 0 <= i < |frozen| && frozen[i] == attr;
  }

  lemma FixAccepted(check: Check, x: Index, y: Index, k: Key, attr: string, c: Key)
    requires c in x.at && c in y.at && y.at[c] == Fix(check.KeyAttrs(), x.at[c], k, attr)
    requires KeyOf(check.KeyAttrs(), x.at[c]) == Ok(c) && attr in check.Frozen()
    requires c == k ==> !Status(x.at[k], "ACTIVE")
    ensures KeyAccepted(check, x, y, c)
  {
    PlainAttr(check, attr);
    hide KeyOf;
  }
}
