/** From the submitted strings to the tasks of a new job, and how the canonical payload decides them. */
module JobCreation {
  import opened Records
  import opened Sorting
  import opened DomainSyntax
  import opened Normalization
  import CanonicalForm

  /** A task to be inserted: the domain it is for and the status it starts in. */
  datatype NewTask = NewTask(domain: string, status: Status)

  datatype Prepared = EmptyList | TooMany(maximum: nat) | Tasks(tasks: seq<NewTask>)

  function NormalValues(t: Text, domains: seq<string>): (vs: seq<string>)
    ensures |vs| == |domains| && forall k :: 0 <= k < |vs| ==> vs[k] == Normalize(t, domains[k]).value
  {
    seq(|domains|, k requires 0 <= k < |domains| => Normalize(t, domains[k]).value)
  }

  function ValidOnly(values: seq<string>): (r: seq<string>)
    ensures forall k :: 0 <= k < |r| ==> ValidSyntax(r[k])
  {
    if values == [] then []
    else if ValidSyntax(values[0]) then [values[0]] + ValidOnly(values[1..])
    else ValidOnly(values[1..])
  }

  function InvalidOnly(values: seq<string>): seq<string> {
    if values == [] then []
    else if ValidSyntax(values[0]) then InvalidOnly(values[1..])
    else [values[0]] + InvalidOnly(values[1..])
  }

  /** The domain row of an invalid entry; an empty value is filed under "invalid". */
  function InvalidName(value: string): string {
    if value != "" then value else "invalid"
  }

  function Pendings(values: seq<string>): seq<NewTask> {
    seq(|values|, k requires 0 <= k < |values| => NewTask(values[k], Pending))
  }

  function Faileds(values: seq<string>): seq<NewTask> {
    seq(|values|, k requires 0 <= k < |values| => NewTask(InvalidName(values[k]), Failed))
  }

  /** One pending task per distinct valid value, in order of first occurrence; one failed task per invalid entry. */
  function JobTasks(values: seq<string>): seq<NewTask> {
    Pendings(FirstOccurrences(ValidOnly(values), {})) + Faileds(InvalidOnly(values))
  }

  lemma {:induction false} ValidAppend(values: seq<string>, v: string)
    ensures ValidOnly(values + [v]) == if ValidSyntax(v) then ValidOnly(values) + [v] else ValidOnly(values)
  {
    if values == [] {
      assert values + [v] == [v] && [v][1..] == [];
    } else {
      assert (values + [v])[0] == values[0] && (values + [v])[1..] == values[1..] + [v];
      ValidAppend(values[1..], v);
    }
  }

  lemma {:induction false} InvalidAppend(values: seq<string>, v: string)
    ensures InvalidOnly(values + [v]) == if ValidSyntax(v) then InvalidOnly(values) else InvalidOnly(values) + [v]
  {
    if values == [] {
      assert values + [v] == [v] && [v][1..] == [];
    } else {
      assert (values + [v])[0] == values[0] && (values + [v])[1..] == values[1..] + [v];
      InvalidAppend(values[1..], v);
    }
  }

  /** A normalization result as the rest of the request relies on it. */
  predicate ResultFor(n: NormalizedDomain, value: string) {
    n.value == value && n.isValid == ValidSyntax(value)
  }

  predicate ResultsFor(results: seq<NormalizedDomain>, values: seq<string>) {
    |results| == |values| && forall k :: 0 <= k < |results| ==> ResultFor(results[k], values[k])
  }

  lemma MoreResults(results: seq<NormalizedDomain>, values: seq<string>, n: NormalizedDomain)
    requires ResultsFor(results, values) && ResultFor(n, n.value)
    ensures ResultsFor(results + [n], values + [n.value])
  {
  }

  lemma NormalValuesAppend(t: Text, domains: seq<string>, i: nat)
    requires i < |domains|
    ensures NormalValues(t, domains[..i + 1]) == NormalValues(t, domains[..i]) + [Normalize(t, domains[i]).value]
  {
  }

  method NormalizeNext(t: Text, domains: seq<string>, i: nat) returns (n: NormalizedDomain)
    requires Faithful(t) && i < |domains|
    ensures ResultFor(n, n.value)
    ensures NormalValues(t, domains[..i + 1]) == NormalValues(t, domains[..i]) + [n.value]
  {
    n := NormalizeDomain(t, domains[i]);
    ValidityIsSyntax(t, domains[i]);
    NormalValuesAppend(t, domains, i);
  }

  method NormalizeAll(t: Text, domains: seq<string>) returns (results: seq<NormalizedDomain>)
    requires Faithful(t)
    ensures ResultsFor(results, NormalValues(t, domains))
  {
    ghost var values: seq<string> := [];
    results := [];
    for i := 0 to |domains|
      invariant values == NormalValues(t, domains[..i]) && ResultsFor(results, values)
    {
      var n := NormalizeNext(t, domains, i);
      MoreResults(results, values, n);
      results := results + [n];
      values := values + [n.value];
    }
    assert domains[..|domains|] == domains;
  }

  /** The loop that sorts normalization results into valid and invalid ones. */
  method Partition(results: seq<NormalizedDomain>, ghost values: seq<string>)
    returns (valid: seq<string>, invalid: seq<string>)
    requires ResultsFor(results, values)
    ensures valid == ValidOnly(values) && invalid == InvalidOnly(values)
  {
    valid, invalid := [], [];
    for i := 0 to |results|
      invariant valid == ValidOnly(values[..i]) && invalid == InvalidOnly(values[..i])
    {
      assert values[..i + 1] == values[..i] + [values[i]];
      assert ResultFor(results[i], values[i]);
      ValidAppend(values[..i], values[i]);
      InvalidAppend(values[..i], values[i]);
      if results[i].isValid {
        valid := valid + [results[i].value];
      } else {
        invalid := invalid + [results[i].value];
      }
    }
    assert values[..|results|] == values;
  }

  /** `[valid_domain_map[v] for v in deduplicated if v in valid_domain_map]` */
  method LookUp(deduplicated: seq<string>, valid: seq<string>) returns (final: seq<string>)
    ensures (forall k :: 0 <= k < |deduplicated| ==> deduplicated[k] in valid) ==> final == deduplicated
  {
    var byValue: map<string, string> := map[];
    for i := 0 to |valid|
      invariant byValue.Keys == (set k | 0 <= k < i :: valid[k])
      invariant forall v :: v in byValue ==> byValue[v] == v
    {
      byValue := byValue[valid[i] := valid[i]];
    }
    final := [];
    for i := 0 to |deduplicated|
      invariant (forall k :: 0 <= k < |deduplicated| ==> deduplicated[k] in valid) ==> final == deduplicated[..i]
    {
      if deduplicated[i] in byValue {
        final := final + [byValue[deduplicated[i]]];
      }
    }
  }

  /**
   The tasks of a request, for every list of strings: rejected when empty or too long, otherwise
   exactly one pending task per distinct valid value and one failed task per invalid entry; the second
   normalization, inside deduplication, drops nothing.
   */
  method PrepareTasks(t: Text, domains: seq<string>, maxDomains: nat) returns (r: Prepared)
    requires Faithful(t)
    ensures r == if domains == [] then EmptyList
                 else if |domains| > maxDomains then TooMany(maxDomains)
                 else Tasks(JobTasks(NormalValues(t, domains)))
  {
    if domains == [] {
      return EmptyList;
    }
    if |domains| > maxDomains {
      return TooMany(maxDomains);
    }
    var results := NormalizeAll(t, domains);
    var valid, invalid := Partition(results, NormalValues(t, domains));
    var finalValid: seq<string> := [];
    if valid != [] {
      var deduplicated := DeduplicateDomains(t, valid);
      DedupOfValidValues(t, valid);
      FirstOccurrencesAreDistinct(valid, {});
      finalValid := LookUp(deduplicated, valid);
    }
    var tasks := BuildTasks(finalValid, invalid);
    r := Tasks(tasks);
  }

  method BuildTasks(valid: seq<string>, invalid: seq<string>) returns (tasks: seq<NewTask>)
    ensures tasks == Pendings(valid) + Faileds(invalid)
  {
    tasks := [];
    for i := 0 to |valid|
      invariant tasks == Pendings(valid[..i])
    {
      tasks := tasks + [NewTask(valid[i], Pending)];
    }
    assert valid[..|valid|] == valid;
    for i := 0 to |invalid|
      invariant tasks == Pendings(valid) + Faileds(invalid[..i])
    {
      tasks := tasks + [NewTask(if invalid[i] != "" then invalid[i] else "invalid", Failed)];
      assert Faileds(invalid[..i + 1]) == Faileds(invalid[..i]) + [NewTask(InvalidName(invalid[i]), Failed)];
    }
    assert invalid[..|invalid|] == invalid;
  }

  // ---- What the tasks conserve ----

  lemma {:induction false} PartitionCounts(values: seq<string>, v: string)
    ensures multiset(ValidOnly(values))[v] == if ValidSyntax(v) then multiset(values)[v] else 0
    ensures multiset(InvalidOnly(values))[v] == if ValidSyntax(v) then 0 else multiset(values)[v]
  {
    if values != [] {
      assert values == [values[0]] + values[1..];
      PartitionCounts(values[1..], v);
    }
  }

  /**
   Conservation: the domains with a pending task are exactly the valid values, each once, and each
   invalid entry has its own failed task, so no submitted domain is lost or doubled.
   */
  lemma TasksConserveDomains(values: seq<string>, v: string)
    ensures multiset(JobTasks(values))[NewTask(v, Pending)] == if v in values && ValidSyntax(v) then 1 else 0
    ensures multiset(JobTasks(values))[NewTask(v, Failed)]
         == if v == "" then 0
            else multiset(InvalidOnly(values))[v] + (if v == "invalid" then multiset(InvalidOnly(values))[""] else 0)
    ensures multiset(InvalidOnly(values))[v] == if ValidSyntax(v) then 0 else multiset(values)[v]
  {
    var valid, invalid := ValidOnly(values), InvalidOnly(values);
    var firsts := FirstOccurrences(valid, {});
    PartitionCounts(values, v);
    FirstOccurrencesAreDistinct(valid, {});
    CountPendings(firsts, v);
    CountNoPendings(invalid, v);
    CountFaileds(invalid, v);
    assert NewTask(v, Failed) !in Pendings(firsts);
    assert v in values <==> v in multiset(values);
    assert v in valid <==> v in multiset(valid);
    assert v in invalid <==> v in multiset(invalid);
    DistinctCountsOnce(firsts, v);
    assert v in firsts <==> v in multiset(firsts);
  }

  lemma {:induction false} CountPendings(values: seq<string>, v: string)
    ensures multiset(Pendings(values))[NewTask(v, Pending)] == multiset(values)[v]
  {
    if values != [] {
      assert values == [values[0]] + values[1..];
      assert Pendings(values) == [NewTask(values[0], Pending)] + Pendings(values[1..]);
      CountPendings(values[1..], v);
    }
  }

  lemma CountNoPendings(values: seq<string>, v: string)
    ensures multiset(Faileds(values))[NewTask(v, Pending)] == 0
  {
    assert NewTask(v, Pending) !in Faileds(values);
  }

  // ---- The canonical payload decides the job ----

  /** An empty value and the value "invalid" are filed under the same name; no other two values are. */
  lemma {:induction false} CountFaileds(values: seq<string>, name: string)
    ensures multiset(Faileds(values))[NewTask(name, Failed)]
         == if name == "" then 0
            else multiset(values)[name] + (if name == "invalid" then multiset(values)[""] else 0)
  {
    if values != [] {
      assert values == [values[0]] + values[1..];
      assert Faileds(values) == [NewTask(InvalidName(values[0]), Failed)] + Faileds(values[1..]);
      CountFaileds(values[1..], name);
    }
  }

  lemma FailedsPermute(a: seq<string>, b: seq<string>)
    requires multiset(a) == multiset(b)
    ensures multiset(Faileds(a)) == multiset(Faileds(b))
  {
    forall t: NewTask ensures multiset(Faileds(a))[t] == multiset(Faileds(b))[t] {
      if t.status == Failed {
        CountFaileds(a, t.domain);
        CountFaileds(b, t.domain);
        assert t == NewTask(t.domain, Failed);
      } else {
        assert t !in Faileds(a) && t !in Faileds(b);
      }
    }
  }

  lemma DistinctSameElements(a: seq<string>, b: seq<string>)
    requires Distinct(a) && Distinct(b) && forall x :: x in a <==> x in b
    ensures multiset(a) == multiset(b)
  {
    forall x ensures multiset(a)[x] == multiset(b)[x] {
      DistinctCountsOnce(a, x);
      DistinctCountsOnce(b, x);
      assert x in a <==> x in multiset(a);
      assert x in b <==> x in multiset(b);
    }
  }

  lemma PendingsPermute(a: seq<string>, b: seq<string>)
    requires multiset(a) == multiset(b)
    ensures multiset(Pendings(a)) == multiset(Pendings(b))
  {
    forall t: NewTask ensures multiset(Pendings(a))[t] == multiset(Pendings(b))[t] {
      if t.status == Pending {
        CountPendings(a, t.domain);
        CountPendings(b, t.domain);
        assert t == NewTask(t.domain, Pending);
      } else {
        assert t !in Pendings(a) && t !in Pendings(b);
      }
    }
  }

  /** The multiset of tasks depends only on the multiset of normalized values. */
  lemma TasksDependOnMultiset(a: seq<string>, b: seq<string>)
    requires multiset(a) == multiset(b)
    ensures multiset(JobTasks(a)) == multiset(JobTasks(b))
  {
    var va, vb := FirstOccurrences(ValidOnly(a), {}), FirstOccurrences(ValidOnly(b), {});
    forall v ensures multiset(InvalidOnly(a))[v] == multiset(InvalidOnly(b))[v] {
      PartitionCounts(a, v);
      PartitionCounts(b, v);
    }
    FailedsPermute(InvalidOnly(a), InvalidOnly(b));
    FirstOccurrencesAreDistinct(ValidOnly(a), {});
    FirstOccurrencesAreDistinct(ValidOnly(b), {});
    forall v ensures v in va <==> v in vb {
      SameValid(a, b, v);
    }
    DistinctSameElements(va, vb);
    PendingsPermute(va, vb);
  }

  lemma SameValid(a: seq<string>, b: seq<string>, v: string)
    requires multiset(a) == multiset(b)
    ensures v in ValidOnly(a) <==> v in ValidOnly(b)
  {
    PartitionCounts(a, v);
    PartitionCounts(b, v);
    assert v in ValidOnly(a) <==> v in multiset(ValidOnly(a));
    assert v in ValidOnly(b) <==> v in multiset(ValidOnly(b));
  }

  /**
   The canonical payload decides the job: two requests hash the same string exactly when their
   normalized values are the same multiset, and then they would create the same tasks.
   */
  lemma CanonicalDecidesJob(t: Text, a: seq<string>, b: seq<string>)
    requires Faithful(t)
    ensures CanonicalForm.Canonical(NormalValues(t, a)) == CanonicalForm.Canonical(NormalValues(t, b))
            <==> multiset(NormalValues(t, a)) == multiset(NormalValues(t, b))
    ensures CanonicalForm.Canonical(NormalValues(t, a)) == CanonicalForm.Canonical(NormalValues(t, b)) ==>
              multiset(JobTasks(NormalValues(t, a))) == multiset(JobTasks(NormalValues(t, b)))
  {
    CanonicalForm.CanonicalDecidesMultiset(NormalValues(t, a), NormalValues(t, b));
    if multiset(NormalValues(t, a)) == multiset(NormalValues(t, b)) {
      TasksDependOnMultiset(NormalValues(t, a), NormalValues(t, b));
    }
  }
}
