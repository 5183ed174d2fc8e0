/** Exact grouping: classes of occurrences by verified equality of bytes. */
module Grouping {
  import opened Common
  import Sorting

  type Bytes = seq<bv8>

  /** The hash, of which nothing is assumed. */
  type Hash = Bytes -> nat

  datatype Representation = OriginalBytes | CanonicalBytes

  datatype Revision = Revision(document: Id, revision: Id)

  /** An input: its recorded hash, both its representations, and what replaying it found. */
  datatype Input = Input(
    revision: Revision, contentHash: nat, markdown: Bytes, canonical: Bytes, errors: bool, warnings: bool)

  datatype Scope = Scope(tenant: string, workspace: string, authorized: set<Revision>)

  datatype Policy = AcceptWarnings | RejectWarnings

  datatype Key = Key(representation: Representation, hash: nat)

  /** One class: the bytes its hash covers, and its occurrences. */
  datatype Group = Group(bytes: Bytes, occurrences: seq<nat>)

  datatype Grouped = Grouped(occurrences: seq<Input>, groups: map<Key, Group>)

  function BytesOf(input: Input, representation: Representation): Bytes {
    match representation case OriginalBytes => input.markdown case CanonicalBytes => input.canonical
  }

  /** The class an input's representation falls in: by its recorded hash, or by the hash of its canonical bytes. */
  function KeyOf(hash: Hash, input: Input, representation: Representation): Key {
    match representation
    case OriginalBytes => Key(OriginalBytes, input.contentHash)
    case CanonicalBytes => Key(CanonicalBytes, hash(input.canonical))
  }

  /** Whether replaying an input found nothing its policy refuses; a recorded hash that is not the bytes' is an error. */
  predicate Eligible(hash: Hash, policy: Policy, input: Input) {
    && !input.errors && input.contentHash == hash(input.markdown)
    && (policy.RejectWarnings? ==> !input.warnings)
  }

  // ---- Authorization

  predicate Repeated(inputs: seq<Input>, n: nat)
    requires n < |inputs|
  {
    exists i :: 0 <= i < n && inputs[i].revision == inputs[n].revision
  }

  /** Whether every input is authorized and no revision repeats. */
  predicate Admitted(scope: Scope, inputs: seq<Input>, n: nat)
    requires n <= |inputs|
  {
    forall i :: 0 <= i < n ==> inputs[i].revision in scope.authorized && !Repeated(inputs, i)
  }

  method Admit(scope: Scope, inputs: seq<Input>) returns (ok: bool)
    ensures ok == Admitted(scope, inputs, |inputs|)
  {
    var seen: set<Revision> := {};
    for i := 0 to |inputs|
      invariant Admitted(scope, inputs, i)
      invariant forall r :: r in seen <==> exists k :: 0 <= k < i && inputs[k].revision == r
    {
      if inputs[i].revision !in scope.authorized || inputs[i].revision in seen {
        return false;
      }
      seen := seen + {inputs[i].revision};
    }
    ok := true;
  }

  // ---- Classes

  function RevisionKey(input: Input): Sorting.Key {
    (input.revision.document, input.revision.revision)
  }

  function InOrder(inputs: seq<Input>): seq<Input> {
    Sorting.SortBy(inputs, RevisionKey)
  }

  /** `insert_group`: an occurrence added to its class; equal hashes over different bytes are a collision. */
  function Inserted(groups: map<Key, Group>, key: Key, bytes: Bytes, index: nat): Result<map<Key, Group>> {
    if key in groups then
      if groups[key].bytes != bytes then Err(Collision)
      else Ok(groups[key := Group(bytes, groups[key].occurrences + [index])])
    else Ok(groups[key := Group(bytes, [index])])
  }

  /** The classes of the first n inputs, or the first refusal. */
  function Classes(hash: Hash, policy: Policy, inputs: seq<Input>, n: nat): Result<map<Key, Group>>
    requires n <= |inputs|
  {
    if n == 0 then Ok(map[])
    else
      var before :- Classes(hash, policy, inputs, n - 1);
      var input := inputs[n - 1];
      if !Eligible(hash, policy, input) then Err(Ineligible)
      else
        var original :- Inserted(before, KeyOf(hash, input, OriginalBytes), input.markdown, n - 1);
        Inserted(original, KeyOf(hash, input, CanonicalBytes), input.canonical, n - 1)
  }

  predicate Blank(scope: Scope) {
    IsBlank(scope.tenant) || IsBlank(scope.workspace)
  }

  /** `group_exact` as a definition. */
  function Exactly(hash: Hash, scope: Scope, policy: Policy, inputs: seq<Input>): Result<Grouped> {
    if Blank(scope) || !Admitted(scope, inputs, |inputs|) then Err(Ineligible)
    else
      var ordered := InOrder(inputs);
      var groups :- Classes(hash, policy, ordered, |ordered|);
      Ok(Grouped(ordered, groups))
  }

  lemma {:induction false} ClassesStop(hash: Hash, policy: Policy, inputs: seq<Input>, n: nat, m: nat)
    requires n <= m <= |inputs| && Classes(hash, policy, inputs, n).Err?
    ensures Classes(hash, policy, inputs, m) == Classes(hash, policy, inputs, n)
  {
    hide Eligible, Inserted;
    if n < m {
      ClassesStop(hash, policy, inputs, n, m - 1);
    }
  }

  method GroupExact(hash: Hash, scope: Scope, policy: Policy, inputs: seq<Input>) returns (r: Result<Grouped>)
    ensures r == Exactly(hash, scope, policy, inputs)
  {
    hide Inserted, Eligible;
    if Blank(scope) {
      return Err(Ineligible);
    }
    var admitted := Admit(scope, inputs);
    if !admitted {
      return Err(Ineligible);
    }
    var ordered := InOrder(inputs);
    var groups: map<Key, Group> := map[];
    var occurrences: seq<Input> := [];
    for i := 0 to |ordered|
      invariant Classes(hash, policy, ordered, i) == Ok(groups)
      invariant occurrences == ordered[..i]
    {
      var input := ordered[i];
      if Classes(hash, policy, ordered, i + 1).Err? {
        ClassesStop(hash, policy, ordered, i + 1, |ordered|);
      }
      if !Eligible(hash, policy, input) {
        return Err(Ineligible);
      }
      var original := Inserted(groups, KeyOf(hash, input, OriginalBytes), input.markdown, |occurrences|);
      if original.Err? {
        return Err(original.error);
      }
      var canonical := Inserted(original.value, KeyOf(hash, input, CanonicalBytes), input.canonical, |occurrences|);
      if canonical.Err? {
        return Err(canonical.error);
      }
      groups := canonical.value;
      occurrences := occurrences + [input];
    }
    assert ordered[..|ordered|] == ordered;
    r := Ok(Grouped(occurrences, groups));
  }

  // ---- What the classes are

  /** The occurrences of a key among the first n inputs. */
  function Occurrences(hash: Hash, inputs: seq<Input>, key: Key, n: nat): (r: seq<nat>)
    requires n <= |inputs|
    ensures forall i :: 0 <= i < |r| ==> r[i] < n && KeyOf(hash, inputs[r[i]], key.representation) == key
    ensures forall i, j :: 0 <= i < j < |r| ==> r[i] < r[j]
    ensures forall i: nat :: i < n && KeyOf(hash, inputs[i], key.representation) == key ==> i in r
  {
    if n == 0 then []
    else Occurrences(hash, inputs, key, n - 1) + if KeyOf(hash, inputs[n - 1], key.representation) == key then [n - 1] else []
  }

  /** Two inputs under one key with different bytes. */
  ghost predicate Clash(hash: Hash, inputs: seq<Input>, i: nat, j: nat, r: Representation)
    requires i < |inputs| && j < |inputs|
  {
    KeyOf(hash, inputs[i], r) == KeyOf(hash, inputs[j], r) && BytesOf(inputs[i], r) != BytesOf(inputs[j], r)
  }

  /** Two of the first n inputs under one key with different bytes. */
  ghost predicate Collides(hash: Hash, inputs: seq<Input>, n: nat)
    requires n <= |inputs|
  {
    exists i, j, r :: 0 <= i < n && 0 <= j < n && Clash(hash, inputs, i, j, r)
  }

  /** A class that holds exactly the occurrences of its key, with the bytes of all of them. */
  ghost predicate Classified(hash: Hash, inputs: seq<Input>, groups: map<Key, Group>, key: Key, n: nat)
    requires n <= |inputs|
  {
    var occurrences := Occurrences(hash, inputs, key, n);
    && (key in groups <==> occurrences != [])
    && (key in groups ==> groups[key].occurrences == occurrences && SameBytes(inputs, key.representation, occurrences, groups[key].bytes))
  }

  ghost predicate SameBytes(inputs: seq<Input>, r: Representation, occurrences: seq<nat>, bytes: Bytes) {
    forall i :: 0 <= i < |occurrences| ==> occurrences[i] < |inputs| && BytesOf(inputs[occurrences[i]], r) == bytes
  }

  /** The classes of one representation. */
  ghost predicate ClassifiedIn(hash: Hash, inputs: seq<Input>, groups: map<Key, Group>, r: Representation, n: nat)
    requires n <= |inputs|
  {
    forall h: nat :: Classified(hash, inputs, groups, Key(r, h), n)
  }

  ghost predicate AllClassified(hash: Hash, inputs: seq<Input>, groups: map<Key, Group>, n: nat)
    requires n <= |inputs|
  {
    ClassifiedIn(hash, inputs, groups, OriginalBytes, n) && ClassifiedIn(hash, inputs, groups, CanonicalBytes, n)
  }

  lemma {:induction false} InsertKey(hash: Hash, inputs: seq<Input>, groups: map<Key, Group>, n: nat, key: Key)
    requires n < |inputs| && Classified(hash, inputs, groups, key, n)
    requires var r := key.representation; Inserted(groups, KeyOf(hash, inputs[n], r), BytesOf(inputs[n], r), n).Ok?
    ensures
      var r := key.representation;
      Classified(hash, inputs, Inserted(groups, KeyOf(hash, inputs[n], r), BytesOf(inputs[n], r), n).value, key, n + 1)
  {
    hide KeyOf, BytesOf, Occurrences, SameBytes;
    var own := KeyOf(hash, inputs[n], key.representation);
    OccurrencesNext(hash, inputs, key, n);
    if own == key {
      OwnKey(hash, inputs, groups, n, key);
    }
  }

  lemma {:induction false} OwnKey(hash: Hash, inputs: seq<Input>, groups: map<Key, Group>, n: nat, key: Key)
    requires n < |inputs| && Classified(hash, inputs, groups, key, n) && KeyOf(hash, inputs[n], key.representation) == key
    requires Inserted(groups, key, BytesOf(inputs[n], key.representation), n).Ok?
    ensures Classified(hash, inputs, Inserted(groups, key, BytesOf(inputs[n], key.representation), n).value, key, n + 1)
  {
    hide KeyOf, BytesOf, Occurrences, SameBytes;
    var before, bytes := Occurrences(hash, inputs, key, n), BytesOf(inputs[n], key.representation);
    OccurrencesNext(hash, inputs, key, n);
    if key !in groups {
      NoBytes(inputs, key.representation, bytes);
      assert [] + [n] == [n];
    }
    SameBytesNext(inputs, key.representation, before, bytes, n);
  }

  lemma {:induction false} NoBytes(inputs: seq<Input>, r: Representation, bytes: Bytes)
    ensures SameBytes(inputs, r, [], bytes)
  {
  }

  lemma {:induction false} OccurrencesNext(hash: Hash, inputs: seq<Input>, key: Key, n: nat)
    requires n < |inputs|
    ensures Occurrences(hash, inputs, key, n + 1)
         == Occurrences(hash, inputs, key, n) + if KeyOf(hash, inputs[n], key.representation) == key then [n] else []
    ensures KeyOf(hash, inputs[n], key.representation) != key ==> Occurrences(hash, inputs, key, n + 1) == Occurrences(hash, inputs, key, n)
  {
  }

  lemma {:induction false} SameBytesNext(inputs: seq<Input>, r: Representation, occurrences: seq<nat>, bytes: Bytes, n: nat)
    requires n < |inputs| && SameBytes(inputs, r, occurrences, bytes) && BytesOf(inputs[n], r) == bytes
    ensures SameBytes(inputs, r, occurrences + [n], bytes)
  {
  }

  lemma {:induction false} InsertClassifies(hash: Hash, inputs: seq<Input>, groups: map<Key, Group>, n: nat, r: Representation, other: Representation, m: nat)
    requires n < |inputs| && m <= |inputs| && other != r
    requires ClassifiedIn(hash, inputs, groups, r, n) && ClassifiedIn(hash, inputs, groups, other, m)
    requires Inserted(groups, KeyOf(hash, inputs[n], r), BytesOf(inputs[n], r), n).Ok?
    ensures
      var next := Inserted(groups, KeyOf(hash, inputs[n], r), BytesOf(inputs[n], r), n).value;
      ClassifiedIn(hash, inputs, next, r, n + 1) && ClassifiedIn(hash, inputs, next, other, m)
  {
    hide Classified;
    var next := Inserted(groups, KeyOf(hash, inputs[n], r), BytesOf(inputs[n], r), n).value;
    forall h: nat ensures Classified(hash, inputs, next, Key(r, h), n + 1) {
      assert Classified(hash, inputs, groups, Key(r, h), n);
      InsertKey(hash, inputs, groups, n, Key(r, h));
    }
    forall h: nat ensures Classified(hash, inputs, next, Key(other, h), m) {
      assert Classified(hash, inputs, groups, Key(other, h), m);
      SameClass(hash, inputs, groups, next, Key(other, h), m);
    }
  }

  lemma {:induction false} SameClass(hash: Hash, inputs: seq<Input>, groups: map<Key, Group>, next: map<Key, Group>, key: Key, m: nat)
    requires m <= |inputs| && Classified(hash, inputs, groups, key, m)
    requires (key in groups <==> key in next) && (key in groups ==> groups[key] == next[key])
    ensures Classified(hash, inputs, next, key, m)
  {
  }

  lemma {:induction false} ClassesClassify(hash: Hash, policy: Policy, inputs: seq<Input>, n: nat)
    requires n <= |inputs| && Classes(hash, policy, inputs, n).Ok?
    ensures AllClassified(hash, inputs, Classes(hash, policy, inputs, n).value, n)
  {
    hide Eligible, Inserted, ClassifiedIn, KeyOf;
    if n == 0 {
      NothingClassified(hash, inputs);
    } else {
      ClassesClassify(hash, policy, inputs, n - 1);
      var before, input := Classes(hash, policy, inputs, n - 1).value, inputs[n - 1];
      var original := Inserted(before, KeyOf(hash, input, OriginalBytes), input.markdown, n - 1).value;
      InsertClassifies(hash, inputs, before, n - 1, OriginalBytes, CanonicalBytes, n - 1);
      InsertClassifies(hash, inputs, original, n - 1, CanonicalBytes, OriginalBytes, n);
    }
  }

  lemma {:induction false} NothingClassified(hash: Hash, inputs: seq<Input>)
    ensures AllClassified(hash, inputs, map[], 0)
  {
  }

  lemma {:induction false} ClassOf(hash: Hash, inputs: seq<Input>, groups: map<Key, Group>, key: Key, n: nat)
    requires n <= |inputs| && AllClassified(hash, inputs, groups, n)
    ensures Classified(hash, inputs, groups, key, n)
  {
    hide Classified;
    assert key == Key(key.representation, key.hash);
    match key.representation
    case OriginalBytes => assert ClassifiedIn(hash, inputs, groups, OriginalBytes, n);
    case CanonicalBytes => assert ClassifiedIn(hash, inputs, groups, CanonicalBytes, n);
  }

  // ---- When grouping succeeds

  ghost predicate AllEligible(hash: Hash, policy: Policy, inputs: seq<Input>, n: nat)
    requires n <= |inputs|
  {
    forall i :: 0 <= i < n ==> Eligible(hash, policy, inputs[i])
  }

  /** Whether the last of n inputs collides with none before it, in one representation. */
  ghost predicate Agrees(hash: Hash, inputs: seq<Input>, n: nat, r: Representation)
    requires n < |inputs|
  {
    forall i :: 0 <= i < n ==> !Clash(hash, inputs, i, n, r)
  }

  lemma {:induction false} InsertSucceeds(hash: Hash, inputs: seq<Input>, groups: map<Key, Group>, n: nat, r: Representation)
    requires n < |inputs| && ClassifiedIn(hash, inputs, groups, r, n)
    ensures Inserted(groups, KeyOf(hash, inputs[n], r), BytesOf(inputs[n], r), n).Ok? <==> Agrees(hash, inputs, n, r)
  {
    hide BytesOf, Clash, SameBytes;
    var own := KeyOf(hash, inputs[n], r);
    assert own == Key(r, own.hash);
    assert Classified(hash, inputs, groups, Key(r, own.hash), n);
    var occurrences := Occurrences(hash, inputs, own, n);
    if own in groups {
      forall i | 0 <= i < n ensures Clash(hash, inputs, i, n, r) <==> i in occurrences && groups[own].bytes != BytesOf(inputs[n], r) {
        ClashIn(hash, inputs, n, r, occurrences, groups[own].bytes, i);
      }
      assert occurrences[0] in occurrences;
    } else {
      forall i | 0 <= i < n ensures !Clash(hash, inputs, i, n, r) {
        NoClash(hash, inputs, n, r, i);
      }
    }
  }

  lemma {:induction false} ClashIn(hash: Hash, inputs: seq<Input>, n: nat, r: Representation, occurrences: seq<nat>, bytes: Bytes, i: nat)
    requires i < n < |inputs| && occurrences == Occurrences(hash, inputs, KeyOf(hash, inputs[n], r), n) && SameBytes(inputs, r, occurrences, bytes)
    ensures Clash(hash, inputs, i, n, r) <==> i in occurrences && bytes != BytesOf(inputs[n], r)
  {
    hide BytesOf;
    if i in occurrences {
      var k :| 0 <= k < |occurrences| && occurrences[k] == i;
    }
  }

  lemma {:induction false} NoClash(hash: Hash, inputs: seq<Input>, n: nat, r: Representation, i: nat)
    requires i < n < |inputs| && Occurrences(hash, inputs, KeyOf(hash, inputs[n], r), n) == []
    ensures !Clash(hash, inputs, i, n, r)
  {
    assert i !in Occurrences(hash, inputs, KeyOf(hash, inputs[n], r), n);
  }

  lemma {:induction false} CollidesNext(hash: Hash, inputs: seq<Input>, n: nat)
    requires n < |inputs|
    ensures Collides(hash, inputs, n + 1) <==>
              || Collides(hash, inputs, n)
              || !Agrees(hash, inputs, n, OriginalBytes) || !Agrees(hash, inputs, n, CanonicalBytes)
  {
    hide Clash;
    forall r | !Agrees(hash, inputs, n, r) ensures Collides(hash, inputs, n + 1) {
      var i :| 0 <= i < n && Clash(hash, inputs, i, n, r);
    }
    if Collides(hash, inputs, n + 1) && !Collides(hash, inputs, n) {
      var i, j, r :| 0 <= i < n + 1 && 0 <= j < n + 1 && Clash(hash, inputs, i, j, r);
      ClashLast(hash, inputs, i, j, r);
      assert !Agrees(hash, inputs, n, r);
      assert r == OriginalBytes || r == CanonicalBytes;
    }
  }

  lemma {:induction false} ClashLast(hash: Hash, inputs: seq<Input>, i: nat, j: nat, r: Representation)
    requires i < |inputs| && j < |inputs| && Clash(hash, inputs, i, j, r)
    ensures i != j && Clash(hash, inputs, j, i, r)
  {
  }

  /** Grouping the first inputs succeeds exactly when each is eligible and no hash covers different bytes. */
  lemma {:induction false} ClassesSucceed(hash: Hash, policy: Policy, inputs: seq<Input>, n: nat)
    requires n <= |inputs|
    ensures Classes(hash, policy, inputs, n).Ok? <==> AllEligible(hash, policy, inputs, n) && !Collides(hash, inputs, n)
  {
    hide Eligible, Inserted, Collides, KeyOf, BytesOf, Agrees;
    if n == 0 {
      NoneCollide(hash, inputs);
    } else {
      ClassesSucceed(hash, policy, inputs, n - 1);
      CollidesNext(hash, inputs, n - 1);
      if Classes(hash, policy, inputs, n - 1).Ok? && Eligible(hash, policy, inputs[n - 1]) {
        LastSucceeds(hash, policy, inputs, n);
      }
    }
  }

  lemma {:induction false} NoneCollide(hash: Hash, inputs: seq<Input>)
    ensures !Collides(hash, inputs, 0)
  {
  }

  lemma {:induction false} LastSucceeds(hash: Hash, policy: Policy, inputs: seq<Input>, n: nat)
    requires 0 < n <= |inputs| && Classes(hash, policy, inputs, n - 1).Ok? && Eligible(hash, policy, inputs[n - 1])
    ensures Classes(hash, policy, inputs, n).Ok? <==> Agrees(hash, inputs, n - 1, OriginalBytes) && Agrees(hash, inputs, n - 1, CanonicalBytes)
  {
    hide Inserted, Eligible, ClassifiedIn, KeyOf, Agrees;
    var before, input := Classes(hash, policy, inputs, n - 1).value, inputs[n - 1];
    ClassesClassify(hash, policy, inputs, n - 1);
    InsertSucceeds(hash, inputs, before, n - 1, OriginalBytes);
    var original := Inserted(before, KeyOf(hash, input, OriginalBytes), input.markdown, n - 1);
    if original.Ok? {
      InsertClassifies(hash, inputs, before, n - 1, OriginalBytes, CanonicalBytes, n - 1);
      InsertSucceeds(hash, inputs, original.value, n - 1, CanonicalBytes);
    }
  }

  // ---- The result

  /** Whether two occurrences share a class of a representation. */
  ghost predicate Share(groups: map<Key, Group>, r: Representation, i: nat, j: nat) {
    exists key :: key in groups && key.representation == r && i in groups[key].occurrences && j in groups[key].occurrences
  }

  /** For each representation, two occurrences share a class exactly when their bytes are equal. */
  lemma {:induction false} SharedExactly(hash: Hash, scope: Scope, policy: Policy, inputs: seq<Input>, r: Representation, i: nat, j: nat)
    requires Exactly(hash, scope, policy, inputs).Ok?
    requires i < |Exactly(hash, scope, policy, inputs).value.occurrences| && j < |Exactly(hash, scope, policy, inputs).value.occurrences|
    ensures
      var grouped := Exactly(hash, scope, policy, inputs).value;
      Share(grouped.groups, r, i, j) <==> BytesOf(grouped.occurrences[i], r) == BytesOf(grouped.occurrences[j], r)
  {
    hide Classes;
    var grouped := Exactly(hash, scope, policy, inputs).value;
    var ordered, n := grouped.occurrences, |grouped.occurrences|;
    ClassesClassify(hash, policy, ordered, n);
    ClassesSucceed(hash, policy, ordered, n);
    if Share(grouped.groups, r, i, j) {
      var key :| key in grouped.groups && key.representation == r && i in grouped.groups[key].occurrences && j in grouped.groups[key].occurrences;
      ClassOf(hash, ordered, grouped.groups, key, n);
    }
    if BytesOf(ordered[i], r) == BytesOf(ordered[j], r) {
      assert Eligible(hash, policy, ordered[i]) && Eligible(hash, policy, ordered[j]);
      var key := KeyOf(hash, ordered[i], r);
      ClassOf(hash, ordered, grouped.groups, key, n);
      assert i in Occurrences(hash, ordered, key, n) && j in Occurrences(hash, ordered, key, n);
    }
  }

  /** Each occurrence is in exactly one class of each representation, and classes list theirs in increasing order. */
  lemma {:induction false} OneClass(hash: Hash, scope: Scope, policy: Policy, inputs: seq<Input>, r: Representation, i: nat)
    requires Exactly(hash, scope, policy, inputs).Ok? && i < |Exactly(hash, scope, policy, inputs).value.occurrences|
    ensures
      var groups := Exactly(hash, scope, policy, inputs).value.groups;
      && (exists key :: key in groups && key.representation == r && i in groups[key].occurrences)
      && (forall k, m :: k in groups && m in groups && k.representation == r && m.representation == r && i in groups[k].occurrences && i in groups[m].occurrences ==> k == m)
      && forall key :: key in groups ==>
           forall a, b :: 0 <= a < b < |groups[key].occurrences| ==> groups[key].occurrences[a] < groups[key].occurrences[b]
  {
    hide Classes, Eligible;
    var grouped := Exactly(hash, scope, policy, inputs).value;
    var ordered, n := grouped.occurrences, |grouped.occurrences|;
    ClassesClassify(hash, policy, ordered, n);
    var key := KeyOf(hash, ordered[i], r);
    ClassOf(hash, ordered, grouped.groups, key, n);
    assert i in Occurrences(hash, ordered, key, n);
    forall k | k in grouped.groups && k.representation == r && i in grouped.groups[k].occurrences ensures k == key {
      ClassOf(hash, ordered, grouped.groups, k, n);
    }
    forall k | k in grouped.groups
      ensures forall a, b :: 0 <= a < b < |grouped.groups[k].occurrences| ==> grouped.groups[k].occurrences[a] < grouped.groups[k].occurrences[b]
    {
      ClassOf(hash, ordered, grouped.groups, k, n);
    }
  }

  // ---- The order of the inputs does not matter

  lemma {:induction false} AdmittedApart(scope: Scope, inputs: seq<Input>)
    ensures Admitted(scope, inputs, |inputs|)
       <==> && (forall i :: 0 <= i < |inputs| ==> inputs[i].revision in scope.authorized)
            && forall i, j :: 0 <= i < j < |inputs| ==> inputs[i].revision != inputs[j].revision
  {
    if forall i, j :: 0 <= i < j < |inputs| ==> inputs[i].revision != inputs[j].revision {
    } else {
      var i, j :| 0 <= i < j < |inputs| && inputs[i].revision == inputs[j].revision;
      assert Repeated(inputs, j);
    }
  }

  lemma {:induction false} AdmittedPermuted(scope: Scope, a: seq<Input>, b: seq<Input>)
    requires multiset(a) == multiset(b) && Admitted(scope, a, |a|)
    ensures Admitted(scope, b, |b|)
  {
    AdmittedApart(scope, a);
    AdmittedApart(scope, b);
    forall i | 0 <= i < |b| ensures b[i].revision in scope.authorized {
      Sorting.MemberOfEqualMultisets(a, b, b[i]);
    }
    forall i, j | 0 <= i < j < |b| ensures b[i].revision != b[j].revision {
      Sorting.MemberOfEqualMultisets(a, b, b[i]);
      Sorting.MemberOfEqualMultisets(a, b, b[j]);
      if b[i] == b[j] {
        Sorting.Twice(b, i, j);
        Sorting.Repeats(a, b[i], |a|);
      } else {
        var k :| 0 <= k < |a| && a[k] == b[i];
        var m :| 0 <= m < |a| && a[m] == b[j];
        assert k != m;
      }
    }
  }

  lemma {:induction false} SameOrder(scope: Scope, a: seq<Input>, b: seq<Input>)
    requires multiset(a) == multiset(b) && Admitted(scope, a, |a|)
    ensures InOrder(a) == InOrder(b)
  {
    AdmittedApart(scope, a);
    Sorting.SortBySorted(a, RevisionKey);
    Sorting.SortBySorted(b, RevisionKey);
    forall x, y | x in InOrder(a) && y in InOrder(a) && RevisionKey(x) == RevisionKey(y) ensures x == y {
      Sorting.MemberOfEqualMultisets(a, InOrder(a), x);
      Sorting.MemberOfEqualMultisets(a, InOrder(a), y);
      var k :| 0 <= k < |a| && a[k] == x;
      var m :| 0 <= m < |a| && a[m] == y;
      assert a[k].revision == a[m].revision;
    }
    Sorting.SortedUnique(InOrder(a), InOrder(b), RevisionKey);
  }

  /** Every permutation of the inputs gives the same result. */
  lemma {:induction false} OrderDoesNotMatter(hash: Hash, scope: Scope, policy: Policy, a: seq<Input>, b: seq<Input>)
    requires multiset(a) == multiset(b)
    ensures Exactly(hash, scope, policy, a) == Exactly(hash, scope, policy, b)
  {
    hide Classes, InOrder, Admitted;
    if Admitted(scope, a, |a|) {
      AdmittedPermuted(scope, a, b);
      SameOrder(scope, a, b);
    } else if Admitted(scope, b, |b|) {
      AdmittedPermuted(scope, b, a);
    }
  }

  lemma {:induction false} SucceedsIff(hash: Hash, scope: Scope, policy: Policy, inputs: seq<Input>)
    ensures Exactly(hash, scope, policy, inputs).Ok?
       <==> && !Blank(scope) && Admitted(scope, inputs, |inputs|)
            && (forall i :: 0 <= i < |inputs| ==> Eligible(hash, policy, inputs[i]))
            && !Collides(hash, inputs, |inputs|)
  {
    hide Classes, Admitted, Eligible, Blank, InOrder;
    var ordered := InOrder(inputs);
    OrderedPermutes(inputs);
    ClassesSucceed(hash, policy, ordered, |ordered|);
    if Collides(hash, inputs, |inputs|) {
      CollidesPermuted(hash, inputs, ordered);
    }
    if Collides(hash, ordered, |ordered|) {
      CollidesPermuted(hash, ordered, inputs);
    }
    if AllEligible(hash, policy, inputs, |inputs|) {
      EligiblePermuted(hash, policy, inputs, ordered);
    }
    if AllEligible(hash, policy, ordered, |ordered|) {
      EligiblePermuted(hash, policy, ordered, inputs);
    }
  }

  /** Inputs no two of which hash alike without being alike, as original bytes or as canonical bytes. */
  ghost predicate HashesApart(hash: Hash, inputs: seq<Input>) {
    forall i, j :: 0 <= i < |inputs| && 0 <= j < |inputs| ==>
      && (hash(inputs[i].markdown) == hash(inputs[j].markdown) ==> inputs[i].markdown == inputs[j].markdown)
      && (hash(inputs[i].canonical) == hash(inputs[j].canonical) ==> inputs[i].canonical == inputs[j].canonical)
  }

  ghost predicate InRevisionOrder(inputs: seq<Input>) {
    forall i, j :: 0 <= i < j < |inputs| ==>
      var (a, b) := (inputs[i].revision, inputs[j].revision);
      a.document < b.document || (a.document == b.document && a.revision <= b.revision)
  }

  lemma {:induction false} CollidesExactly(hash: Hash, inputs: seq<Input>)
    requires forall i :: 0 <= i < |inputs| ==> inputs[i].contentHash == hash(inputs[i].markdown)
    ensures Collides(hash, inputs, |inputs|) <==> !HashesApart(hash, inputs)
  {
    if !HashesApart(hash, inputs) {
      var i, j :| 0 <= i < |inputs| && 0 <= j < |inputs|
                  && ((hash(inputs[i].markdown) == hash(inputs[j].markdown) && inputs[i].markdown != inputs[j].markdown)
                      || (hash(inputs[i].canonical) == hash(inputs[j].canonical) && inputs[i].canonical != inputs[j].canonical));
      assert Clash(hash, inputs, i, j, OriginalBytes) || Clash(hash, inputs, i, j, CanonicalBytes);
    }
  }

  /**
   * Grouping succeeds exactly in a scope with names, for authorized and distinct revisions that
   * replayed without errors, hash as recorded and, where warnings are rejected, have none, with no
   * two of one hash over different bytes. Its occurrences are the inputs in order of revision.
   */
  lemma {:induction false} SucceedsExactly(hash: Hash, scope: Scope, policy: Policy, inputs: seq<Input>)
    ensures Exactly(hash, scope, policy, inputs).Ok?
       <==> && !IsBlank(scope.tenant) && !IsBlank(scope.workspace)
            && (forall i :: 0 <= i < |inputs| ==> inputs[i].revision in scope.authorized)
            && (forall i, j :: 0 <= i < j < |inputs| ==> inputs[i].revision != inputs[j].revision)
            && (forall i :: 0 <= i < |inputs| ==> !inputs[i].errors && inputs[i].contentHash == hash(inputs[i].markdown))
            && (policy == RejectWarnings ==> forall i :: 0 <= i < |inputs| ==> !inputs[i].warnings)
            && HashesApart(hash, inputs)
    ensures Exactly(hash, scope, policy, inputs).Ok? ==>
              var occurrences := Exactly(hash, scope, policy, inputs).value.occurrences;
              multiset(occurrences) == multiset(inputs) && InRevisionOrder(occurrences)
  {
    hide Classes, Collides, HashesApart;
    SucceedsIff(hash, scope, policy, inputs);
    if forall i :: 0 <= i < |inputs| ==> inputs[i].contentHash == hash(inputs[i].markdown) {
      CollidesExactly(hash, inputs);
    }
    Sorting.SortBySorted(inputs, RevisionKey);
    var ordered := InOrder(inputs);
    forall i, j | 0 <= i < j < |ordered|
      ensures var (a, b) := (ordered[i].revision, ordered[j].revision); a.document < b.document || (a.document == b.document && a.revision <= b.revision)
    {
      assert Sorting.Leq(RevisionKey(ordered[i]), RevisionKey(ordered[j]));
    }
  }

  lemma {:induction false} OrderedPermutes(inputs: seq<Input>)
    ensures multiset(InOrder(inputs)) == multiset(inputs)
  {
  }

  lemma {:induction false} EligiblePermuted(hash: Hash, policy: Policy, a: seq<Input>, b: seq<Input>)
    requires multiset(a) == multiset(b) && AllEligible(hash, policy, a, |a|)
    ensures AllEligible(hash, policy, b, |b|)
  {
    hide Eligible;
    forall i | 0 <= i < |b| ensures Eligible(hash, policy, b[i]) {
      Sorting.MemberOfEqualMultisets(a, b, b[i]);
    }
  }

  lemma {:induction false} CollidesPermuted(hash: Hash, a: seq<Input>, b: seq<Input>)
    requires multiset(a) == multiset(b) && Collides(hash, a, |a|)
    ensures Collides(hash, b, |b|)
  {
    var i, j, r :| 0 <= i < |a| && 0 <= j < |a| && Clash(hash, a, i, j, r);
    Sorting.MemberOfEqualMultisets(a, b, a[i]);
    Sorting.MemberOfEqualMultisets(a, b, a[j]);
    var k :| 0 <= k < |b| && b[k] == a[i];
    var m :| 0 <= m < |b| && b[m] == a[j];
    assert Clash(hash, b, k, m, r);
  }
}
