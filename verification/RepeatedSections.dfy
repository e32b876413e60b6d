/** Files in which a section name comes more than once. */
module RepeatedSections {
  import opened Wrappers
  import opened Strings
  import opened TextLines
  import opened GitModules

  /** The sections as dictionaries keep them: a repeated name keeps its position and takes the later section. */
  function Latest(sections: seq<Submodule>): seq<Submodule> {
    if sections == [] then []
    else Put(NameOf, Latest(sections[..|sections| - 1]), sections[|sections| - 1])
  }

  lemma {:induction false} LatestAre(sections: seq<Submodule>)
    ensures DistinctBy(NameOf, Latest(sections)) && forall m :: m in Latest(sections) ==> m in sections
  {
    if sections != [] {
      hide Put, DistinctBy;
      var init, s := sections[..|sections| - 1], sections[|sections| - 1];
      LatestAre(init);
      PutDistinct(NameOf, Latest(init), s);
      PutMembers(NameOf, Latest(init), s);
    }
  }

  lemma PairsCons(m: Submodule, ms: seq<Submodule>, field: string)
    ensures Pairs([m] + ms, field) == [PairOf(m, field)] + Pairs(ms, field)
  {
    hide PairOf;
  }

  lemma PutStep<T>(key: T -> string, x: T, rest: seq<T>, y: T)
    ensures Put(key, [x] + rest, y) == if key(x) == key(y) then [y] + rest else [x] + Put(key, rest, y)
  {
    assert ([x] + rest)[1..] == rest;
  }

  lemma SameKey(m: Submodule, s: Submodule, field: string)
    ensures KeyOf(PairOf(m, field)) == KeyOf(PairOf(s, field)) <==> NameOf(m) == NameOf(s)
  {
    if KeyOf(PairOf(m, field)) == KeyOf(PairOf(s, field)) {
      FullKeyInjective(m.name, s.name, field);
    }
  }

  lemma {:induction false} PutPairs(ms: seq<Submodule>, s: Submodule, field: string)
    ensures Put(KeyOf, Pairs(ms, field), PairOf(s, field)) == Pairs(Put(NameOf, ms, s), field)
  {
    if ms == [] {
      PairsCons(s, [], field);
    } else {
      hide *;
      var m, rest := ms[0], ms[1..];
      assert ms == [m] + rest;
      PairsCons(m, rest, field);
      PairsCons(s, rest, field);
      PairsCons(m, Put(NameOf, rest, s), field);
      PutStep(NameOf, m, rest, s);
      PutStep(KeyOf, PairOf(m, field), Pairs(rest, field), PairOf(s, field));
      SameKey(m, s, field);
      PutPairs(rest, s, field);
    }
  }

  lemma CleanPairs(s: Submodule, field: string)
    requires Clean(s) && (field == "path" || field == "url")
    ensures CleanPair(PairOf(s, field)) && PairOf(s, field).0 != ""
  {
    hide FullKey, Spaceless, CleanValue, IsSpace;
    FullKeyIsClean(s.name, field);
  }

  lemma LinesOfLast(sections: seq<Submodule>, field: string)
    requires sections != []
    ensures PairLines(Pairs(sections, field))
         == PairLines(Pairs(sections[..|sections| - 1], field)) + [PairLine(PairOf(sections[|sections| - 1], field))]
  {
    hide PairLine, PairOf;
  }

  lemma PutsPair(pairs: seq<Pair>, p: Pair)
    requires CleanPair(p) && p.0 != ""
    ensures AddLine(pairs, PairLine(p)) == Some(Put(KeyOf, pairs, p))
  {
    hide CutLine, SkipSpace, PairLine, CleanPair, Put;
    CutPairLine(p);
  }

  lemma LatestLast(sections: seq<Submodule>)
    requires sections != []
    ensures Latest(sections) == Put(NameOf, Latest(sections[..|sections| - 1]), sections[|sections| - 1])
    ensures Latest([]) == []
  {
  }

  lemma NothingToRead(field: string)
    ensures PairLines(Pairs([], field)) == [] && ReadPairs([]) == Some([]) && Pairs(Latest([]), field) == []
  {
  }

  lemma {:induction false} ReadLatest(sections: seq<Submodule>, field: string)
    requires (forall s :: s in sections ==> Clean(s)) && (field == "path" || field == "url")
    ensures ReadPairs(PairLines(Pairs(sections, field))) == Some(Pairs(Latest(sections), field))
  {
    hide *;
    if sections == [] {
      NothingToRead(field);
    } else {
      var init, s := sections[..|sections| - 1], sections[|sections| - 1];
      assert s in sections;
      ReadLatest(init, field);
      LinesOfLast(sections, field);
      ReadPairsLast(PairLines(Pairs(init, field)), PairLine(PairOf(s, field)));
      CleanPairs(s, field);
      PutsPair(Pairs(Latest(init), field), PairOf(s, field));
      PutPairs(Latest(init), s, field);
      LatestLast(sections);
    }
  }

  lemma LinesAreLines(sections: seq<Submodule>, field: string)
    requires (forall s :: s in sections ==> Clean(s)) && (field == "path" || field == "url")
    ensures forall l :: l in PairLines(Pairs(sections, field)) ==> OneLine(l)
  {
    hide Clean, PairLine, PairOf, OneLine, CleanPair;
    var lines := PairLines(Pairs(sections, field));
    forall i | 0 <= i < |lines|
      ensures OneLine(lines[i])
    {
      assert sections[i] in sections;
      CleanPairs(sections[i], field);
      PairLineOneLine(PairOf(sections[i], field));
    }
  }

  lemma LatestBlob(sections: seq<Submodule>, field: string)
    requires (forall s :: s in sections ==> Clean(s)) && (field == "path" || field == "url")
    ensures ConfigBlob(Written(sections), field) == Some(Pairs(Latest(sections), field))
  {
    hide Output, Pairs, PairLines, Ordinary, Written, SplitLines, Unlines, OneLine, ReadPairs, Latest;
    forall s | s in sections
      ensures Ordinary(s.name)
    {
      UndottedIsOrdinary(s.name);
    }
    OutputOfWritten(sections, field);
    LinesAreLines(sections, field);
    SplitUnlines(PairLines(Pairs(sections, field)));
    ReadLatest(sections, field);
  }

  lemma LatestRead(sections: seq<Submodule>)
    requires forall s :: s in sections ==> Clean(s)
    ensures Submodules(Written(sections)) == Some(Latest(sections))
  {
    hide ConfigBlob, ByName, Clean, DistinctBy, Pairs, Written, Latest;
    var ms := Latest(sections);
    LatestAre(sections);
    LatestBlob(sections, "path");
    LatestBlob(sections, "url");
    PairsAreClean(ms, "url");
    CleanIsUndotted(ms);
    ByNameOfPairs(ms, |ms|);
    assert Pairs(ms, "path")[..|ms|] == Pairs(ms, "path") && ms[..|ms|] == ms;
  }

  lemma {:induction false} PutAt(ms: seq<Submodule>, s: Submodule, k: nat)
    requires k < |ms| && ms[k].name == s.name && forall i :: 0 <= i < k ==> ms[i].name != s.name
    ensures Put(NameOf, ms, s) == ms[k := s]
  {
    if k > 0 {
      PutAt(ms[1..], s, k - 1);
    }
  }

  /**
   A clean section behind any others takes the place of the submodule of its name, path and url together,
   and stands last when there is none.
   */
  lemma SectionBehind(sections: seq<Submodule>, s: Submodule)
    requires Clean(s) && forall o :: o in sections ==> Clean(o)
    ensures Submodules(Written([])) == Some([])
    ensures Submodules(Written(sections)).Some? && Submodules(Written(sections + [s])).Some?
    ensures var before, after := Submodules(Written(sections)).value, Submodules(Written(sections + [s])).value;
            && ((forall i :: 0 <= i < |before| ==> before[i].name != s.name) ==> after == before + [s])
            && forall k :: 0 <= k < |before| && before[k].name == s.name ==> after == before[k := s]
  {
    hide Clean, Put, Written, Submodules;
    var before := Latest(sections);
    assert (sections + [s])[..|sections|] == sections;
    LatestRead([]);
    LatestRead(sections);
    LatestRead(sections + [s]);
    LatestAre(sections);
    if forall i :: 0 <= i < |before| ==> before[i].name != s.name {
      PutNew(NameOf, before, s);
    }
    forall k | 0 <= k < |before| && before[k].name == s.name
      ensures Put(NameOf, before, s) == before[k := s]
    {
      assert forall i :: 0 <= i < k ==> NameOf(before[i]) != NameOf(before[k]);
      PutAt(before, s, k);
    }
  }
}
