/** internal/dashboard/format.go: unique `bom-ref` names in the CycloneDX report. */
module RefAllocator {
  import opened Strings
  import opened Decimal
  import opened Seqs

  function Candidate(base: string, suffix: nat): string {
    base + ":" + WriteNumber(suffix)
  }

  lemma CandidatesDiffer(base: string, a: nat, b: nat)
    requires a != b
    ensures Candidate(base, a) != Candidate(base, b)
  {
    var head := base + ":";
    assert Candidate(base, a)[|head|..] == WriteNumber(a) && Candidate(base, b)[|head|..] == WriteNumber(b);
    assert Value(WriteNumber(a)) == a && Value(WriteNumber(b)) == b;
  }

  lemma CandidateIsNotBase(base: string, suffix: nat)
    ensures Candidate(base, suffix) != base
  {
    assert |Candidate(base, suffix)| > |base|;
  }

  class Allocator {
    const reserved: set<string>
    var used: set<string>

    /** `newPortfolioRefAllocator`. */
    constructor (bases: seq<string>)
      ensures reserved == Elements(bases) && used == {}
    {
      var names: set<string> := {};
      for i := 0 to |bases|
        invariant names == Elements(bases[..i])
      {
        TakeLast(bases, i);
        names := names + {bases[i]};
      }
      TakeAll(bases);
      reserved := names;
      used := {};
    }

    /** The base itself for its first holder, else the first free numbered name. The search ends: every name passed
        over is reserved or used, no name comes up twice, and those sets are finite. */
    method Allocate(base: string) returns (reference: string)
      modifies this
      ensures reference !in old(used) && used == old(used) + {reference}
      ensures reference == base <==> base !in old(used)
      ensures reference != base ==>
        reference !in reserved && exists suffix :: suffix >= 2 && reference == Candidate(base, suffix)
    {
      if base !in used {
        used := used + {base};
        return base;
      }
      var suffix := 2;
      ghost var left := reserved + used;
      while true
        invariant used == old(used) && suffix >= 2 && left <= reserved + used
        invariant forall name <- reserved + used ::
          name !in left ==> exists k :: 2 <= k < suffix && name == Candidate(base, k)
        decreases left
      {
        var candidate := Candidate(base, suffix);
        CandidateIsNotBase(base, suffix);
        if candidate in reserved || candidate in used {
          forall k | 2 <= k < suffix ensures candidate != Candidate(base, k) { CandidatesDiffer(base, k, suffix); }
          assert candidate in left;
          left := left - {candidate};
          suffix := suffix + 1;
          continue;
        }
        used := used + {candidate};
        return candidate;
      }
    }
  }

  /** No earlier component has the same base. */
  predicate IsFirst(bases: seq<string>, i: nat)
    requires i < |bases|
  {
    bases[i] !in bases[..i]
  }

  lemma FirstMeans(bases: seq<string>, i: nat)
    requires i < |bases|
    ensures IsFirst(bases, i) <==> bases[i] !in bases[..i]
  {
  }

  /** The references of a whole report: `portfolioCycloneDXComponents`, with repositories and then dependencies. */
  method PortfolioReferences(bases: seq<string>) returns (references: seq<string>)
    ensures |references| == |bases|
    ensures Distinct(references)
    ensures forall i :: 0 <= i < |bases| ==> (references[i] == bases[i] <==> IsFirst(bases, i))
  {
    hide IsFirst;
    var allocator := new Allocator(bases);
    references := [];
    for i := 0 to |bases|
      invariant |references| == i && Distinct(references) && allocator.reserved == Elements(bases)
      invariant forall name :: name in allocator.used <==> name in references
      invariant forall name <- references :: name in bases[..i] || name !in allocator.reserved
      invariant forall name <- bases[..i] :: name in references
      invariant forall k :: 0 <= k < i ==> (references[k] == bases[k] <==> IsFirst(bases, k))
    {
      TakeLast(bases, i);
      assert bases[i] in Elements(bases);
      assert bases[i] in allocator.used <==> !IsFirst(bases, i) by { FirstMeans(bases, i); }
      var reference := allocator.Allocate(bases[i]);
      references := references + [reference];
    }
  }
}
