/** The listing of skills and the resolution of a name agree. */
module SkillsAgree {
  import opened Text
  import opened Ordering
  import opened Skills

  /** The file of a listed skill: in a skills directory, the `SKILL.md` of its directory. */
  function FileOf(s: Skill): SkillPath {
    if s.origin.SkillsDir? then SkillFile(s.path.root, s.path.file) else s.path
  }

  function ToCandidate(s: Skill): Candidate {
    Candidate(s.name, FileOf(s))
  }

  /** The candidates are those of the skills, in the same order. */
  ghost predicate Correspond(candidates: seq<Candidate>, skills: seq<Skill>) {
    |candidates| == |skills| && forall i :: 0 <= i < |skills| ==> candidates[i] == ToCandidate(skills[i])
  }

  // ---------- One root ----------

  lemma {:induction false} SameEntry(front: FrontMatter, root: Root, e: Entry)
    ensures var s, c := SkillAt(front, root, e), CandidateAt(front, root, e);
            (s.None? <==> c.None?) && (s.Some? ==> c.value == ToCandidate(s.value) && s.value.shadowedBy == None)
  {
  }

  lemma {:induction false} SameEntries(front: FrontMatter, root: Root, entries: seq<Entry>)
    ensures Correspond(CandidatesIn(front, root, entries), SkillsIn(front, root, entries))
    ensures forall s :: s in SkillsIn(front, root, entries) ==> s.shadowedBy == None
  {
    if entries != [] {
      SameEntries(front, root, entries[..|entries| - 1]);
      SameEntry(front, root, entries[|entries| - 1]);
    }
  }

  lemma {:induction false} InsertCandidates(s: Skill, candidates: seq<Candidate>, skills: seq<Skill>)
    requires Correspond(candidates, skills)
    ensures Correspond(Insert(ToCandidate(s), candidates, CandidateName), Insert(s, skills, NameOf))
  {
    if skills != [] && !Less(s.name, skills[0].name) {
      InsertCandidates(s, candidates[1..], skills[1..]);
    }
  }

  /** Both sort by name, and so put their entries in the same order. */
  lemma {:induction false} SortCandidates(candidates: seq<Candidate>, skills: seq<Skill>)
    requires Correspond(candidates, skills)
    ensures Correspond(SortBy(candidates, CandidateName), SortBy(skills, NameOf))
  {
    if skills != [] {
      var n := |skills| - 1;
      SortCandidates(candidates[..n], skills[..n]);
      InsertCandidates(skills[n], SortBy(candidates[..n], CandidateName), SortBy(skills[..n], NameOf));
    }
  }

  lemma {:induction false} MatchIsFirst(candidates: seq<Candidate>, skills: seq<Skill>, requested: string)
    requires Correspond(candidates, skills)
    ensures var first := First(skills, Lower(requested));
            Match(candidates, requested) == if first < |skills| then Some(FileOf(skills[first])) else None
  {
    var key := Lower(requested);
    if skills != [] {
      SameNameIsLower(skills[0].name, requested);
      FirstConcat([skills[0]], skills[1..], key);
      FirstIs([skills[0]], key, if Lower(skills[0].name) == key then 0 else 1);
      assert [skills[0]] + skills[1..] == skills;
      if !SameName(skills[0].name, requested) {
        MatchIsFirst(candidates[1..], skills[1..], requested);
      }
    }
  }

  /** In one root, both find the same skill. */
  lemma {:induction false} RootMatch(front: FrontMatter, root: Root, requested: string)
    requires root.entries.Ok?
    ensures var skills := SortedSkills(front, root);
            var first := First(skills, Lower(requested));
            Match(SortedCandidates(front, root), requested) ==
            if first < |skills| then Some(FileOf(skills[first])) else None
  {
    var entries := root.entries.value;
    SameEntries(front, root, entries);
    SortCandidates(CandidatesIn(front, root, entries), SkillsIn(front, root, entries));
    MatchIsFirst(SortedCandidates(front, root), SortedSkills(front, root), requested);
  }

  // ---------- All roots ----------

  /** How many roots can be read before the first that cannot. */
  function ReadableCount(roots: seq<Root>): (n: nat)
    ensures n <= |roots| && Readable(roots, n)
    ensures n < |roots| ==> roots[n].entries.Err?
  {
    if roots == [] || roots[0].entries.Err? then 0 else 1 + ReadableCount(roots[1..])
  }

  /** The search is over once the first `i` roots hold the name, and else goes on after them. */
  lemma {:induction false} SearchSkips(front: FrontMatter, roots: seq<Root>, requested: string, i: nat)
    requires i <= |roots| && Readable(roots, i)
    ensures var all := SkillsOf(front, roots, i);
            var first := First(all, Lower(requested));
            Search(front, roots, requested, 0) ==
            if first < |all| then Found(FileOf(all[first])) else Search(front, roots, requested, i)
    decreases i
  {
    if i > 0 {
      SearchSkips(front, roots, requested, i - 1);
      SearchOne(front, roots, requested, i - 1);
      var before, here := SkillsOf(front, roots, i - 1), SortedSkills(front, roots[i - 1]);
      assert SkillsOf(front, roots, i) == before + here;
      InTurn(before, here, Lower(requested),
             Search(front, roots, requested, 0), Search(front, roots, requested, i - 1),
             Search(front, roots, requested, i));
    }
  }

  /** A search of `a` that goes on with a search of `b` is a search of both. */
  lemma {:induction false} InTurn(a: seq<Skill>, b: seq<Skill>, key: string, first: Resolved, second: Resolved,
                                  after: Resolved)
    requires first == if First(a, key) < |a| then Found(FileOf(a[First(a, key)])) else second
    requires second == if First(b, key) < |b| then Found(FileOf(b[First(b, key)])) else after
    ensures first == if First(a + b, key) < |a + b| then Found(FileOf((a + b)[First(a + b, key)])) else after
  {
    FirstConcat(a, b, key);
  }

  lemma {:induction false} SearchOne(front: FrontMatter, roots: seq<Root>, requested: string, i: nat)
    requires i < |roots| && roots[i].entries.Ok?
    ensures var skills := SortedSkills(front, roots[i]);
            var first := First(skills, Lower(requested));
            Search(front, roots, requested, i) ==
            if first < |skills| then Found(FileOf(skills[first])) else Search(front, roots, requested, i + 1)
  {
    SearchStep(front, roots, requested, i);
    RootMatch(front, roots[i], requested);
  }

  /** The search finds the first skill of the name in the readable roots before the first
      unreadable one, and otherwise reports that root, if there is one. */
  lemma {:induction false} SearchIsFirst(front: FrontMatter, roots: seq<Root>, requested: string)
    ensures var n := ReadableCount(roots);
            var all := SkillsOf(front, roots, n);
            var first := First(all, Lower(requested));
            Search(front, roots, requested, 0) ==
            if first < |all| then Found(FileOf(all[first]))
            else if n < |roots| then Unreadable(roots[n].entries.error)
            else NotFound
  {
    var n := ReadableCount(roots);
    SearchSkips(front, roots, requested, n);
    if n < |roots| {
      SearchStep(front, roots, requested, n);
    }
  }

  lemma {:induction false} NoneShadowedYet(front: FrontMatter, roots: seq<Root>, n: nat)
    requires n <= |roots| && Readable(roots, n)
    ensures forall s :: s in SkillsOf(front, roots, n) ==> s.shadowedBy == None
  {
    if n > 0 {
      NoneShadowedYet(front, roots, n - 1);
      var skills := SkillsIn(front, roots[n - 1], roots[n - 1].entries.value);
      SameEntries(front, roots[n - 1], roots[n - 1].entries.value);
      SortBySorts(skills, NameOf);
      SameMembers(skills, SortBy(skills, NameOf));
    }
  }

  lemma {:induction false} SameMembers(a: seq<Skill>, b: seq<Skill>)
    requires SameElements(a, b)
    ensures forall s :: s in a <==> s in b
  {
    forall s ensures s in a <==> s in b {
      assert s in a <==> s in multiset(a);
      assert s in b <==> s in multiset(b);
    }
  }

  // ---------- The theorems ----------

  /** What the listing shows of the roots that can be read. */
  ghost predicate Listing(front: FrontMatter, roots: seq<Root>, list: seq<Skill>) {
    Marked(SkillsOf(front, roots, ReadableCount(roots)), list)
  }

  ghost predicate Active(list: seq<Skill>, i: nat, name: string) {
    i < |list| && list[i].shadowedBy == None && SameName(list[i].name, name)
  }

  lemma {:induction false} ActiveIsFirst(front: FrontMatter, roots: seq<Root>, list: seq<Skill>, name: string)
    requires Listing(front, roots, list)
    ensures var all := SkillsOf(front, roots, ReadableCount(roots));
            var first := First(all, Lower(name));
            && |all| == |list|
            && (forall i: nat :: Active(list, i, name) <==> i < |list| && i == first)
            && (first < |list| ==> list[first] == all[first])
  {
    var all := SkillsOf(front, roots, ReadableCount(roots));
    var first := First(all, Lower(name));
    NoneShadowedYet(front, roots, ReadableCount(roots));
    FirstIs(all, Lower(name), first);
    forall i: nat ensures Active(list, i, name) <==> i < |list| && i == first {
      if i < |list| {
        assert list[i] == Mark(all, i) && all[i] in all;
        SameNameIsLower(all[i].name, name);
        FirstIs(all, Lower(all[i].name), First(all, Lower(all[i].name)));
      }
    }
  }

  /** For any roots and any text: the resolution finds a file exactly when the listing has
      an unshadowed skill of the requested name up to case, and it is that skill's file. */
  lemma {:induction false} ResolutionIsListed(front: FrontMatter, roots: seq<Root>, list: seq<Skill>, skill: string,
                                              file: SkillPath)
    requires Listing(front, roots, list)
    ensures Resolve(front, roots, skill) == Found(file) <==>
            Requested(skill) != "" && exists i: nat :: Active(list, i, Requested(skill)) && FileOf(list[i]) == file
    ensures Readable(roots, |roots|) && Requested(skill) != "" ==>
              (Resolve(front, roots, skill) == NotFound <==> forall i: nat :: !Active(list, i, Requested(skill)))
  {
    var requested := Requested(skill);
    if requested != "" {
      SearchIsFirst(front, roots, requested);
      ActiveIsFirst(front, roots, list, requested);
      var all := SkillsOf(front, roots, ReadableCount(roots));
      var first := First(all, Lower(requested));
      if first < |list| {
        assert Active(list, first, requested);
      }
    }
  }

  /** Without such a skill, an empty request and an unreadable root are reported, and in this
      order; otherwise that there is none. */
  lemma {:induction false} ResolutionFails(front: FrontMatter, roots: seq<Root>, list: seq<Skill>, skill: string)
    requires Listing(front, roots, list)
    requires Requested(skill) != "" ==> forall i: nat :: !Active(list, i, Requested(skill))
    ensures Requested(skill) == "" ==> Resolve(front, roots, skill) == InvalidInput
    ensures Requested(skill) != "" && Readable(roots, |roots|) ==> Resolve(front, roots, skill) == NotFound
    ensures forall n: nat :: n < |roots| && Readable(roots, n) && roots[n].entries.Err? && Requested(skill) != "" ==>
              Resolve(front, roots, skill) == Unreadable(roots[n].entries.error)
  {
    var requested := Requested(skill);
    if requested != "" {
      SearchIsFirst(front, roots, requested);
      ActiveIsFirst(front, roots, list, requested);
      var first := First(SkillsOf(front, roots, ReadableCount(roots)), Lower(requested));
      assert !Active(list, first, requested);
      forall n: nat | n < |roots| && Readable(roots, n) && roots[n].entries.Err? ensures n == ReadableCount(roots) {
        FirstUnreadable(roots, n);
      }
    }
  }

  lemma {:induction false} FirstUnreadable(roots: seq<Root>, n: nat)
    requires n < |roots| && Readable(roots, n) && roots[n].entries.Err?
    ensures ReadableCount(roots) == n
  {
  }

  /** Among the listed skills of a name up to case exactly one is unshadowed, the first; and
      each of the others says which source shadows it. */
  lemma {:induction false} OneUnshadowed(front: FrontMatter, roots: seq<Root>, list: seq<Skill>, i: nat)
    returns (active: nat)
    requires Listing(front, roots, list) && i < |list|
    ensures active <= i && Active(list, active, list[i].name)
    ensures forall j: nat :: Active(list, j, list[i].name) ==> j == active
    ensures i != active ==> list[i].shadowedBy == Some(list[active].source)
  {
    var all := SkillsOf(front, roots, ReadableCount(roots));
    ActiveIsFirst(front, roots, list, list[i].name);
    assert list[i] == Mark(all, i);
    active := First(all, Lower(all[i].name));
    FirstIs(all, Lower(all[i].name), First(all, Lower(all[i].name)));
  }

  // ---------- Skills out of reach ----------

  lemma {:induction false} TrimLeadingShortens(s: string, c: char)
    ensures |TrimLeading(s, c)| <= |s| && (|TrimLeading(s, c)| == |s| ==> TrimLeading(s, c) == s)
  {
    if s != "" && s[0] == c {
      TrimLeadingShortens(s[1..], c);
    }
  }

  /** Root directories are listed once, and a directory names each of its entries once. */
  ghost predicate DistinctEntries(roots: seq<Root>) {
    && (forall i, j :: 0 <= i < j < |roots| ==> roots[i].path != roots[j].path)
    && (forall root :: root in roots && root.entries.Ok? ==> DistinctFiles(root.entries.value))
  }

  ghost predicate DistinctFiles(entries: seq<Entry>) {
    forall i, j :: 0 <= i < j < |entries| ==> entries[i].file != entries[j].file
  }

  /** The skills are different ones, each with a file of its own. */
  ghost predicate OwnFiles(skills: seq<Skill>) {
    && Distinct(skills)
    && forall s, t :: s in skills && t in skills && FileOf(s) == FileOf(t) ==> s == t
  }

  lemma {:induction false} OwnFilesPermuted(a: seq<Skill>, b: seq<Skill>)
    requires SameElements(a, b) && OwnFiles(a)
    ensures OwnFiles(b)
  {
    SameMembers(a, b);
    DistinctIsOnce(a);
    DistinctIsOnce(b);
  }

  lemma {:induction false} SkillEntries(front: FrontMatter, root: Root, entries: seq<Entry>)
    requires DistinctFiles(entries)
    ensures OwnFiles(SkillsIn(front, root, entries))
    ensures forall s :: s in SkillsIn(front, root, entries) ==>
                          s.path.root == root.path && exists e :: e in entries && s.path.file == e.file
    ensures forall s :: s in SkillsIn(front, root, entries) ==> s.origin == root.origin
  {
    if entries != [] {
      var n := |entries| - 1;
      SkillEntries(front, root, entries[..n]);
      var before := SkillsIn(front, root, entries[..n]);
      var last := SkillAt(front, root, entries[n]);
      if last.Some? {
        forall s | s in before ensures s.path.file != last.value.path.file {
          var e :| e in entries[..n] && s.path.file == e.file;
        }
        AddOwnFile(before, last.value);
      }
      assert entries[n] in entries && forall e :: e in entries[..n] ==> e in entries;
    }
  }

  lemma {:induction false} AddOwnFile(skills: seq<Skill>, s: Skill)
    requires OwnFiles(skills) && forall t :: t in skills ==> t.path.file != s.path.file
    ensures OwnFiles(skills + [s])
  {
    forall t ensures t in skills + [s] <==> t in skills || t == s {
    }
    assert forall t :: t in skills ==> FileOf(t) != FileOf(s);
  }

  lemma {:induction false} AllOwnFiles(front: FrontMatter, roots: seq<Root>, n: nat)
    requires n <= |roots| && Readable(roots, n) && DistinctEntries(roots)
    ensures OwnFiles(SkillsOf(front, roots, n))
    ensures forall s :: s in SkillsOf(front, roots, n) ==> exists i :: 0 <= i < n && s.path.root == roots[i].path
  {
    if n > 0 {
      AllOwnFiles(front, roots, n - 1);
      var root := roots[n - 1];
      var found := SkillsIn(front, root, root.entries.value);
      assert root in roots;
      SkillEntries(front, root, root.entries.value);
      SortBySorts(found, NameOf);
      SameMembers(found, SortedSkills(front, root));
      OwnFilesPermuted(found, SortedSkills(front, root));
      forall s, t | s in SkillsOf(front, roots, n - 1) && t in SortedSkills(front, root)
        ensures s.path.root != t.path.root
      {
        var i :| 0 <= i < n - 1 && s.path.root == roots[i].path;
      }
      JoinOwnFiles(SkillsOf(front, roots, n - 1), SortedSkills(front, root));
    }
  }

  lemma {:induction false} JoinOwnFiles(a: seq<Skill>, b: seq<Skill>)
    requires OwnFiles(a) && OwnFiles(b)
    requires forall s, t :: s in a && t in b ==> s.path.root != t.path.root
    ensures OwnFiles(a + b)
  {
    assert forall s, t :: s in a && t in b ==> FileOf(s) != FileOf(t);
    assert forall s :: s in a + b ==> s in a || s in b;
    forall i, j | 0 <= i < j < |a + b| ensures (a + b)[i] != (a + b)[j] {
      if i < |a| <= j {
        assert a[i] in a && b[j - |a|] in b;
      }
    }
  }

  /** Different listed skills have different files. */
  lemma {:induction false} ListedFiles(front: FrontMatter, roots: seq<Root>, list: seq<Skill>, i: nat, j: nat)
    requires Listing(front, roots, list) && DistinctEntries(roots)
    requires i < |list| && j < |list| && FileOf(list[i]) == FileOf(list[j])
    ensures i == j
  {
    var all := SkillsOf(front, roots, ReadableCount(roots));
    AllOwnFiles(front, roots, ReadableCount(roots));
    assert list[i] == Mark(all, i) && list[j] == Mark(all, j);
    assert FileOf(all[i]) == FileOf(all[j]) && all[i] in all && all[j] in all;
  }

  /** An unshadowed skill is resolved by its own name exactly when that name is written
      without blanks around it and without a leading slash or dollar: otherwise the name asks
      for a different one. */
  lemma {:induction false} ByItsOwnName(front: FrontMatter, roots: seq<Root>, list: seq<Skill>, i: nat)
    requires Listing(front, roots, list) && DistinctEntries(roots)
    requires i < |list| && list[i].shadowedBy == None
    ensures var name := list[i].name;
            Resolve(front, roots, name) == Found(FileOf(list[i])) <==> Requested(name) == name && name != ""
  {
    var name := list[i].name;
    ResolutionIsListed(front, roots, list, name, FileOf(list[i]));
    RequestedShortens(name);
    if Requested(name) == name && name != "" {
      assert Active(list, i, name);
    }
    if Resolve(front, roots, name) == Found(FileOf(list[i])) {
      var j: nat :| Active(list, j, Requested(name)) && FileOf(list[j]) == FileOf(list[i]);
      ListedFiles(front, roots, list, i, j);
    }
  }

  /** A skill named `/a` by its front matter is listed, unshadowed, and not found by that
      name. */
  lemma {:induction false} SlashIsOutOfReach(source: Source, path: string, file: string, contents: string)
    ensures var front := (text: string) => Some("/a");
            var roots := [Root(source, path, SkillsDir, Ok([Entry(file, Directory(Some(contents)))]))];
            var list := [Skill("/a", source, None, SkillsDir, InRoot(path, file))];
            Listing(front, roots, list) && Resolve(front, roots, "/a") == NotFound
  {
    var front := (text: string) => Some("/a");
    var entry := Entry(file, Directory(Some(contents)));
    var root := Root(source, path, SkillsDir, Ok([entry]));
    var list := [Skill("/a", source, None, SkillsDir, InRoot(path, file))];
    OneListed(front, root, entry, list[0]);
    assert Listing(front, [root], list);
    assert Trim("/a") == "/a" && TrimLeading("/a", '/') == "a" && TrimLeading("a", '$') == "a";
    assert Requested("/a") == "a";
    forall i: nat ensures !Active(list, i, "a") {
    }
    ResolutionIsListed(front, [root], list, "/a", InRoot(path, file));
  }

  lemma {:induction false} OneListed(front: FrontMatter, root: Root, entry: Entry, s: Skill)
    requires root.entries == Ok([entry]) && SkillAt(front, root, entry) == Some(s) && s.shadowedBy == None
    ensures ReadableCount([root]) == 1 && SkillsOf(front, [root], 1) == [s] && Marked([s], [s])
  {
    OneReadable(root);
    OneSkill(front, root, entry, s);
    assert SkillsOf(front, [root], 0) == [];
    FirstIs([s], Lower(s.name), 0);
  }

  lemma {:induction false} OneReadable(root: Root)
    requires root.entries.Ok?
    ensures ReadableCount([root]) == 1
  {
    assert [root][1..] == [];
    assert ReadableCount([]) == 0;
  }

  lemma {:induction false} OneSkill(front: FrontMatter, root: Root, entry: Entry, s: Skill)
    requires root.entries == Ok([entry]) && SkillAt(front, root, entry) == Some(s)
    ensures SortedSkills(front, root) == [s]
  {
    assert [entry][..0] == [];
    assert SkillsIn(front, root, [entry]) == [s];
    SortOfOne(s);
  }

  lemma {:induction false} SortOfOne(s: Skill)
    ensures SortBy([s], NameOf) == [s]
  {
    assert [s][..0] == [];
    assert SortBy([], NameOf) == [];
  }

  lemma {:induction false} RequestedShortens(name: string)
    ensures Requested(name) == name || |Requested(name)| < |name|
  {
    TrimCuts(name);
    TrimLeadingShortens(Trim(name), '/');
    TrimLeadingShortens(TrimLeading(Trim(name), '/'), '$');
  }

  lemma {:induction false} TrimCuts(s: string)
    ensures Trim(s) == s || |Trim(s)| < |s|
  {
    if s != "" {
      TrimShortens(s[1..]);
      TrimShortens(s[..|s| - 1]);
    }
    TrimShortens(TrimStart(s));
  }
}
