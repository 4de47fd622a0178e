/** Greedy allocation of function ranges from ordered seed addresses. */
module FunctionDiscovery {
  import opened Common
  import opened Records
  import Search

  datatype Section = Section(va: nat, dataSize: nat, executable: bool)

  /** What discovery asks of a loaded image. */
  datatype Image = Image(entryVa: nat, sections: seq<Section>, sectionFor: nat -> Option<Section>)

  datatype ExceptionRecord = ExceptionRecord(begin: nat, end: nat)

  const FALLBACK_SPAN: nat := 0x4000

  predicate Executable(image: Image, va: nat) {
    image.sectionFor(va).Some? && image.sectionFor(va).value.executable
  }

  // ------------------------------------------------------------------- seeds

  function Begins(rows: seq<ExceptionRecord>): seq<nat> {
    seq(|rows|, i requires 0 <= i < |rows| => rows[i].begin)
  }

  function CodeStarts(sections: seq<Section>): (r: seq<nat>)
    ensures forall va :: va in r <==> exists i :: 0 <= i < |sections| && sections[i].executable && sections[i].va == va
  {
    if sections == [] then []
    else (if sections[0].executable then [sections[0].va] else []) + CodeStarts(sections[1..])
  }

  /** Why an address is a seed: the first of the five collection passes that names it. */
  function SourceOf(image: Image, exceptions: seq<ExceptionRecord>, exports: seq<nat>, targets: seq<nat>,
                    va: nat): Option<string>
  {
    if image.entryVa != 0 && va == image.entryVa then Some("entry")
    else if va in Begins(exceptions) then Some("pdata")
    else if va in exports && Executable(image, va) then Some("export")
    else if va in targets then Some("call")
    else if va in CodeStarts(image.sections) then Some("section")
    else None
  }

  ghost predicate SeedsMatch(seeds: map<nat, string>, image: Image, exceptions: seq<ExceptionRecord>,
                             exports: seq<nat>, targets: seq<nat>) {
    forall va: nat ::
      SourceOf(image, exceptions, exports, targets, va) == if va in seeds then Some(seeds[va]) else None
  }

  /** One collection pass: a key that is already a seed keeps its first source. */
  method AddSeeds(seeds: map<nat, string>, keys: seq<nat>, source: string) returns (r: map<nat, string>)
    ensures forall va :: va in r <==> va in seeds || va in keys
    ensures forall va :: va in r ==> r[va] == if va in seeds then seeds[va] else source
  {
    r := seeds;
    for i := 0 to |keys|
      invariant forall va :: va in r <==> va in seeds || va in keys[..i]
      invariant forall va :: va in r ==> r[va] == if va in seeds then seeds[va] else source
    {
      if keys[i] !in r { r := r[keys[i] := source]; }
    }
    assert keys[..|keys|] == keys;
  }

  function ExecutableExports(image: Image, exports: seq<nat>): (r: seq<nat>)
    ensures forall va :: va in r <==> va in exports && Executable(image, va)
  {
    if exports == [] then []
    else (if Executable(image, exports[0]) then [exports[0]] else []) + ExecutableExports(image, exports[1..])
  }

  method CollectSeeds(image: Image, exceptions: seq<ExceptionRecord>, exports: seq<nat>, targets: seq<nat>)
    returns (seeds: map<nat, string>)
    ensures SeedsMatch(seeds, image, exceptions, exports, targets)
  {
    seeds := if image.entryVa != 0 then map[image.entryVa := "entry"] else map[];
    seeds := AddSeeds(seeds, Begins(exceptions), "pdata");
    seeds := AddSeeds(seeds, ExecutableExports(image, exports), "export");
    seeds := AddSeeds(seeds, targets, "call");
    seeds := AddSeeds(seeds, CodeStarts(image.sections), "section");
  }

  // ------------------------------------------------------------ function ends

  ghost predicate LastFor(rows: seq<ExceptionRecord>, k: nat, start: nat) {
    k < |rows| && rows[k].begin == start && forall j :: k < j < |rows| ==> rows[j].begin != start
  }

  /** The last record for a start decides. */
  function ExceptionEnds(rows: seq<ExceptionRecord>): (m: map<nat, nat>)
    ensures forall start: nat, k: nat :: LastFor(rows, k, start) ==> start in m && m[start] == rows[k].end
    ensures forall start :: start in m ==> exists k :: 0 <= k < |rows| && rows[k].begin == start
  {
    if rows == [] then map[]
    else ExceptionEnds(rows[..|rows| - 1])[rows[|rows| - 1].begin := rows[|rows| - 1].end]
  }

  function Limit(section: Section, start: nat): nat {
    var sectionEnd := section.va + section.dataSize;
    if sectionEnd < start + FALLBACK_SPAN then sectionEnd else start + FALLBACK_SPAN
  }

  type Code = map<nat, Instruction>

  /** The lowest return instruction in [start, limit) closes the function; otherwise the limit does. */
  ghost predicate ClosedBy(code: Code, start: nat, limit: nat, end: nat) {
    if exists a :: IsReturn(code, a, start, limit)
    then exists a :: IsReturn(code, a, start, limit) && end == code[a].address + code[a].size
                     && forall b :: IsReturn(code, b, start, limit) ==> a <= b
    else end == limit
  }

  ghost predicate IsReturn(code: Code, a: nat, start: nat, limit: nat) {
    a in code && start <= a < limit && code[a].isRet
  }

  /** The end that discovery assigns to a function starting at `start`. */
  ghost predicate EndOf(image: Image, code: Code, ends: map<nat, nat>, start: nat, end: nat) {
    if start in ends then end == ends[start]
    else if image.sectionFor(start).None? then end == start
    else ClosedBy(code, start, Limit(image.sectionFor(start).value, start), end)
  }

  lemma {:induction false} EndIsUnique(image: Image, code: Code, ends: map<nat, nat>, start: nat, e1: nat, e2: nat)
    requires EndOf(image, code, ends, start, e1) && EndOf(image, code, ends, start, e2)
    ensures e1 == e2
  {
    if start !in ends && image.sectionFor(start).Some? {
      var limit := Limit(image.sectionFor(start).value, start);
      if exists a :: IsReturn(code, a, start, limit) {
        var a :| IsReturn(code, a, start, limit) && e1 == code[a].address + code[a].size
            && forall b :: IsReturn(code, b, start, limit) ==> a <= b;
        var c :| IsReturn(code, c, start, limit) && e2 == code[c].address + code[c].size
            && forall b :: IsReturn(code, b, start, limit) ==> c <= b;
        assert a <= c && c <= a;
      }
    }
  }

  ghost predicate AddressList(code: Code, addresses: seq<nat>) {
    Ascending(addresses) && forall a :: a in addresses <==> a in code
  }

  method GuessFunctionEnd(image: Image, addresses: seq<nat>, code: Code, ends: map<nat, nat>, start: nat)
    returns (end: nat)
    requires AddressList(code, addresses)
    ensures EndOf(image, code, ends, start, end)
  {
    if start in ends { return ends[start]; }
    var section := image.sectionFor(start);
    if section.None? { return start; }
    var limit := Limit(section.value, start);
    var first := Search.PartitionPoint(addresses, start);
    var i := first;
    while i < |addresses| && addresses[i] < limit
      invariant first <= i <= |addresses|
      invariant forall k :: 0 <= k < i ==> !IsReturn(code, addresses[k], start, limit)
    {
      if code[addresses[i]].isRet {
        assert IsReturn(code, addresses[i], start, limit);
        NoEarlierReturn(code, addresses, start, limit, i);
        return code[addresses[i]].address + code[addresses[i]].size;
      }
      i := i + 1;
    }
    NoReturn(code, addresses, start, limit, i);
    return limit;
  }

  lemma {:induction false} NoEarlierReturn(code: Code, addresses: seq<nat>, start: nat, limit: nat, i: nat)
    requires AddressList(code, addresses) && i < |addresses|
    requires forall k :: 0 <= k < i ==> !IsReturn(code, addresses[k], start, limit)
    ensures forall b :: IsReturn(code, b, start, limit) ==> addresses[i] <= b
  {
    forall b | IsReturn(code, b, start, limit)
      ensures addresses[i] <= b
    {
      var k :| 0 <= k < |addresses| && addresses[k] == b;
    }
  }

  lemma {:induction false} NoReturn(code: Code, addresses: seq<nat>, start: nat, limit: nat, i: nat)
    requires AddressList(code, addresses) && i <= |addresses|
    requires i == |addresses| || limit <= addresses[i]
    requires forall k :: 0 <= k < i ==> !IsReturn(code, addresses[k], start, limit)
    ensures !exists a :: IsReturn(code, a, start, limit)
  {
    forall b | b in code
      ensures !IsReturn(code, b, start, limit)
    {
      var k :| 0 <= k < |addresses| && addresses[k] == b;
    }
  }

  // --------------------------------------------------------------- allocation

  /** Sorted, non-empty, pairwise disjoint ranges. */
  ghost predicate Disjoint(fs: seq<FunctionRecord>) {
    && (forall i :: 0 <= i < |fs| ==> fs[i].start < fs[i].end)
    && (forall i, j :: 0 <= i < j < |fs| ==> fs[i].end <= fs[j].start)
  }

  predicate Covered(fs: seq<FunctionRecord>, va: nat) {
    exists i :: 0 <= i < |fs| && fs[i].start <= va < fs[i].end
  }

  /** A seed that discovery may turn into a function. */
  ghost predicate Eligible(image: Image, code: Code, ends: map<nat, nat>, va: nat) {
    va in code && Executable(image, va) && exists end :: EndOf(image, code, ends, va, end) && va < end
  }

  /** Each function starts at an eligible seed and carries that seed's source and end. */
  ghost predicate FromSeeds(image: Image, code: Code, ends: map<nat, nat>, seeds: map<nat, string>,
                            fs: seq<FunctionRecord>) {
    forall i :: 0 <= i < |fs| ==>
                  && fs[i].start in seeds && fs[i].source == seeds[fs[i].start]
                  && fs[i].start in code && Executable(image, fs[i].start)
                  && EndOf(image, code, ends, fs[i].start, fs[i].end)
  }

  ghost predicate Handled(image: Image, code: Code, ends: map<nat, nat>, fs: seq<FunctionRecord>, va: nat) {
    Eligible(image, code, ends, va) ==> Covered(fs, va)
  }

  /**
   * The reported functions are sorted, non-empty, pairwise disjoint, start at decoded
   * executable instructions, and, unless the cap is reached, cover every eligible seed.
   */
  method DiscoverFunctions(image: Image, code: Code, exceptions: seq<ExceptionRecord>, exports: seq<nat>,
                           targets: set<nat>, maxFunctions: nat)
    returns (fs: seq<FunctionRecord>)
    ensures Disjoint(fs) && |fs| <= maxFunctions
    ensures forall i :: 0 <= i < |fs| ==>
                          && SourceOf(image, exceptions, exports, Sorted(targets), fs[i].start) == Some(fs[i].source)
                          && fs[i].start in code && Executable(image, fs[i].start)
                          && EndOf(image, code, ExceptionEnds(exceptions), fs[i].start, fs[i].end)
    ensures |fs| < maxFunctions ==>
              forall va: nat ::
                SourceOf(image, exceptions, exports, Sorted(targets), va).Some? ==>
                  Handled(image, code, ExceptionEnds(exceptions), fs, va)
  {
    var seeds := CollectSeeds(image, exceptions, exports, Sorted(targets));
    var addresses := Sorted(code.Keys);
    SortedOrder(code.Keys);
    forall a ensures a in addresses <==> a in code { SortedMembers(code.Keys, a); }
    var order := Sorted(seeds.Keys);
    SortedOrder(seeds.Keys);
    forall a ensures a in order <==> a in seeds { SortedMembers(seeds.Keys, a); }
    var ends := ExceptionEnds(exceptions);
    fs := Allocate(image, code, addresses, ends, seeds, order, maxFunctions);
  }

  method Allocate(image: Image, code: Code, addresses: seq<nat>, ends: map<nat, nat>, seeds: map<nat, string>,
                  order: seq<nat>, maxFunctions: nat)
    returns (fs: seq<FunctionRecord>)
    requires AddressList(code, addresses)
    requires Ascending(order) && forall va :: va in order <==> va in seeds
    ensures Disjoint(fs) && |fs| <= maxFunctions && FromSeeds(image, code, ends, seeds, fs)
    ensures |fs| < maxFunctions ==> forall va :: va in seeds ==> Handled(image, code, ends, fs, va)
  {
    fs := [];
    var n := 0;
    while n < |order| && |fs| < maxFunctions
      invariant 0 <= n <= |order| && |fs| <= maxFunctions
      invariant Disjoint(fs) && FromSeeds(image, code, ends, seeds, fs)
      invariant n < |order| ==> StartsBelow(fs, order[n])
      invariant forall k :: 0 <= k < n ==> Handled(image, code, ends, fs, order[k])
    {
      var more := AllocateAt(image, code, addresses, ends, seeds, fs, order[n]);
      forall k | 0 <= k < n ensures Handled(image, code, ends, fs + more, order[k]) {
        HandledGrows(image, code, ends, fs, more, order[k]);
      }
      fs := fs + more;
      n := n + 1;
    }
  }

  ghost predicate StartsBelow(fs: seq<FunctionRecord>, va: nat) {
    forall i :: 0 <= i < |fs| ==> fs[i].start < va
  }

  lemma {:induction false} HandledGrows(image: Image, code: Code, ends: map<nat, nat>, fs: seq<FunctionRecord>,
                                        more: seq<FunctionRecord>, va: nat)
    requires Handled(image, code, ends, fs, va)
    ensures Handled(image, code, ends, fs + more, va)
  {
    if Covered(fs, va) {
      var i :| 0 <= i < |fs| && fs[i].start <= va < fs[i].end;
      assert (fs + more)[i] == fs[i];
    }
  }

  /** The body of the allocation loop for one seed. */
  method AllocateAt(image: Image, code: Code, addresses: seq<nat>, ends: map<nat, nat>, seeds: map<nat, string>,
                    fs: seq<FunctionRecord>, start: nat)
    returns (more: seq<FunctionRecord>)
    requires AddressList(code, addresses) && start in seeds
    requires Disjoint(fs) && FromSeeds(image, code, ends, seeds, fs)
    requires StartsBelow(fs, start)
    ensures |more| <= 1 && (|more| == 1 ==> more[0].start == start)
    ensures Disjoint(fs + more) && FromSeeds(image, code, ends, seeds, fs + more)
    ensures Handled(image, code, ends, fs + more, start)
  {
    more := [];
    assert fs + more == fs;
    if start !in code || Covered(fs, start) || !Executable(image, start) { return; }
    var end := GuessFunctionEnd(image, addresses, code, ends, start);
    if end <= start {
      forall e: nat | EndOf(image, code, ends, start, e)
        ensures e <= start { EndIsUnique(image, code, ends, start, e, end); }
      return;
    }
    more := [FunctionRecord(start, end, seeds[start])];
    assert (fs + more)[|fs|] == more[0];
  }
}
