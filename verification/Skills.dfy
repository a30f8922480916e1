/** The two lookups of skills in `commands/src/lib.rs`: the listing of all skills with their
    shadowing, and the resolution of one name. Reading a name from the front matter of a
    Markdown text is a parameter. */
module Skills {
  import opened Text
  import opened Ordering

  datatype Source =
    | ProjectClaw | ProjectCodex | ProjectClaude | UserClawConfigHome
    | UserCodexHome | UserClaw | UserCodex | UserClaude

  datatype Origin = SkillsDir | LegacyCommandsDir

  /** What an entry of a root is: a directory, with the text of its `SKILL.md` if it has
      one, or a file. */
  datatype Node = Directory(skill: Option<string>) | File(contents: string)

  datatype Entry = Entry(file: string, node: Node)

  /** A skill root; its entries in the order the directory lists them, or the error of
      reading one of them. */
  datatype Root = Root(source: Source, path: string, origin: Origin, entries: Result<seq<Entry>, string>)

  /** An entry of a root, or the `SKILL.md` in it. */
  datatype SkillPath = InRoot(root: string, file: string) | SkillFile(root: string, file: string)

  /** `SkillSummary`. */
  datatype Skill = Skill(name: string, source: Source, shadowedBy: Option<Source>, origin: Origin, path: SkillPath)

  /** What the resolution keeps of an entry: its name and the file it would return. */
  datatype Candidate = Candidate(name: string, file: SkillPath)

  type FrontMatter = string -> Option<string>

  function NameOf(s: Skill): string {
    s.name
  }

  function CandidateName(c: Candidate): string {
    c.name
  }

  // ---------- Names ----------

  /** `eq_ignore_ascii_case`. */
  predicate SameName(a: string, b: string) {
    |a| == |b| && forall i :: 0 <= i < |a| ==> LowerChar(a[i]) == LowerChar(b[i])
  }

  lemma {:induction false} SameNameIsLower(a: string, b: string)
    ensures SameName(a, b) <==> Lower(a) == Lower(b)
  {
    if Lower(a) == Lower(b) {
      forall i | 0 <= i < |a| ensures LowerChar(a[i]) == LowerChar(b[i]) {
        assert Lower(a)[i] == Lower(b)[i];
      }
    }
  }

  function TrimLeading(s: string, c: char): string {
    if s != "" && s[0] == c then TrimLeading(s[1..], c) else s
  }

  /** The name a user asks for: blanks around it and leading slashes, then dollars, go. */
  function Requested(skill: string): string {
    TrimLeading(TrimLeading(Trim(skill), '/'), '$')
  }

  /** `Path::extension` starts after the last dot that is not the first character. */
  function LastDot(file: string, n: nat): nat
    requires n <= |file|
  {
    if n <= 1 then 0 else if file[n - 1] == '.' then n - 1 else LastDot(file, n - 1)
  }

  lemma {:induction false} LastDotInside(file: string, n: nat)
    requires n <= |file|
    ensures LastDot(file, n) < n || (n == 0 && LastDot(file, n) == 0)
  {
    if n > 1 && file[n - 1] != '.' {
      LastDotInside(file, n - 1);
    }
  }

  function Stem(file: string): string {
    LastDotInside(file, |file|);
    var dot := LastDot(file, |file|);
    if dot == 0 then file else file[..dot]
  }

  predicate IsMarkdown(file: string) {
    LastDotInside(file, |file|);
    var dot := LastDot(file, |file|);
    dot != 0 && SameName(file[dot + 1..], "md")
  }

  // ---------- One root ----------

  function Named(front: FrontMatter, contents: string, fallback: string): string {
    match front(contents)
    case Some(name) => name
    case None => fallback
  }

  /** The skill that the listing makes of an entry. */
  function SkillAt(front: FrontMatter, root: Root, e: Entry): Option<Skill> {
    match root.origin
    case SkillsDir =>
      if e.node.Directory? && e.node.skill.Some? then
        Some(Skill(Named(front, e.node.skill.value, e.file), root.source, None, SkillsDir, InRoot(root.path, e.file)))
      else None
    case LegacyCommandsDir =>
      match e.node
      case Directory(None) => None
      case Directory(Some(contents)) =>
        Some(Skill(Named(front, contents, "SKILL"), root.source, None, LegacyCommandsDir, SkillFile(root.path, e.file)))
      case File(contents) =>
        if IsMarkdown(e.file) then
          Some(Skill(Named(front, contents, Stem(e.file)), root.source, None, LegacyCommandsDir,
                     InRoot(root.path, e.file)))
        else None
  }

  /** The candidate that the resolution makes of an entry. */
  function CandidateAt(front: FrontMatter, root: Root, e: Entry): Option<Candidate> {
    match root.origin
    case SkillsDir =>
      if e.node.Directory? && e.node.skill.Some? then
        Some(Candidate(Named(front, e.node.skill.value, e.file), SkillFile(root.path, e.file)))
      else None
    case LegacyCommandsDir =>
      match e.node
      case Directory(None) => None
      case Directory(Some(contents)) => Some(Candidate(Named(front, contents, "SKILL"), SkillFile(root.path, e.file)))
      case File(contents) =>
        if IsMarkdown(e.file) then Some(Candidate(Named(front, contents, Stem(e.file)), InRoot(root.path, e.file)))
        else None
  }

  function SkillsIn(front: FrontMatter, root: Root, entries: seq<Entry>): seq<Skill> {
    if entries == [] then []
    else
      var last := SkillAt(front, root, entries[|entries| - 1]);
      SkillsIn(front, root, entries[..|entries| - 1]) + if last.Some? then [last.value] else []
  }

  function CandidatesIn(front: FrontMatter, root: Root, entries: seq<Entry>): seq<Candidate> {
    if entries == [] then []
    else
      var last := CandidateAt(front, root, entries[|entries| - 1]);
      CandidatesIn(front, root, entries[..|entries| - 1]) + if last.Some? then [last.value] else []
  }

  // ---------- All roots ----------

  /** The first `n` roots can be read. */
  predicate Readable(roots: seq<Root>, n: nat)
    requires n <= |roots|
  {
    forall i :: 0 <= i < n ==> roots[i].entries.Ok?
  }

  function SortedSkills(front: FrontMatter, root: Root): seq<Skill>
    requires root.entries.Ok?
  {
    SortBy(SkillsIn(front, root, root.entries.value), NameOf)
  }

  /** The skills of the first `n` roots, each root's sorted by name. */
  function SkillsOf(front: FrontMatter, roots: seq<Root>, n: nat): seq<Skill>
    requires n <= |roots| && Readable(roots, n)
  {
    if n == 0 then [] else SkillsOf(front, roots, n - 1) + SortedSkills(front, roots[n - 1])
  }

  /** The position of the first skill of a lower-case name, or the length. */
  function First(skills: seq<Skill>, key: string): (n: nat)
    ensures n <= |skills|
  {
    FirstFrom(skills, key, 0)
  }

  function FirstFrom(skills: seq<Skill>, key: string, i: nat): (n: nat)
    requires i <= |skills|
    ensures i <= n <= |skills|
    decreases |skills| - i, 2
  {
    if i == |skills| then i else FirstAt(skills, key, i)
  }

  function FirstAt(skills: seq<Skill>, key: string, i: nat): (n: nat)
    requires i < |skills|
    ensures i <= n <= |skills|
    decreases |skills| - i, 1
  {
    if Lower(skills[i].name) == key then i else FirstAfter(skills, key, i)
  }

  function FirstAfter(skills: seq<Skill>, key: string, i: nat): (n: nat)
    requires i < |skills|
    ensures i <= n <= |skills|
    decreases |skills| - i, 0
  {
    FirstFrom(skills, key, i + 1)
  }

  ghost predicate IsFirstNamed(skills: seq<Skill>, key: string, n: nat) {
    && n <= |skills|
    && (n < |skills| ==> Lower(skills[n].name) == key)
    && forall i :: 0 <= i < n ==> Lower(skills[i].name) != key
  }

  lemma {:induction false} FirstSpec(skills: seq<Skill>, key: string, i: nat)
    requires i <= |skills| && forall k :: 0 <= k < i ==> Lower(skills[k].name) != key
    ensures IsFirstNamed(skills, key, FirstFrom(skills, key, i))
    decreases |skills| - i
  {
    if i < |skills| && Lower(skills[i].name) != key {
      FirstSpec(skills, key, i + 1);
      assert FirstFrom(skills, key, i) == FirstAt(skills, key, i);
      assert FirstAfter(skills, key, i) == FirstFrom(skills, key, i + 1);
    }
  }

  lemma {:induction false} FirstIs(skills: seq<Skill>, key: string, n: nat)
    ensures IsFirstNamed(skills, key, n) <==> First(skills, key) == n
  {
    FirstSpec(skills, key, 0);
    var m := First(skills, key);
    if IsFirstNamed(skills, key, n) {
      assert !(m < n) && !(n < m);
    }
  }

  function Mark(skills: seq<Skill>, i: nat): Skill
    requires i < |skills|
  {
    var first := First(skills, Lower(skills[i].name));
    if first < i then skills[i].(shadowedBy := Some(skills[first].source)) else skills[i]
  }

  /** Each skill is shadowed by the first one before it of the same name up to case. */
  ghost predicate Marked(skills: seq<Skill>, list: seq<Skill>) {
    |list| == |skills| && forall i :: 0 <= i < |skills| ==> list[i] == Mark(skills, i)
  }

  ghost predicate SourceAt(active: map<string, Source>, skills: seq<Skill>, key: string) {
    var first := First(skills, key);
    if first < |skills| then key in active && active[key] == skills[first].source else key !in active
  }

  /** `active` gives the source of the first skill of each name. */
  ghost predicate Sources(active: map<string, Source>, skills: seq<Skill>) {
    forall key :: SourceAt(active, skills, key)
  }

  lemma {:induction false} FirstConcat(a: seq<Skill>, b: seq<Skill>, key: string)
    ensures First(a + b, key) == if First(a, key) < |a| then First(a, key) else |a| + First(b, key)
  {
    FirstIs(a, key, First(a, key));
    FirstIs(b, key, First(b, key));
    var n := if First(a, key) < |a| then First(a, key) else |a| + First(b, key);
    forall i | 0 <= i < n ensures Lower((a + b)[i].name) != key {
      if i >= |a| {
        assert (a + b)[i] == b[i - |a|];
      }
    }
    FirstIs(a + b, key, n);
  }

  lemma {:induction false} FirstAppend(skills: seq<Skill>, s: Skill, key: string)
    ensures First(skills + [s], key) ==
            if First(skills, key) < |skills| then First(skills, key)
            else if Lower(s.name) == key then |skills| else |skills| + 1
  {
    FirstConcat(skills, [s], key);
    FirstIs([s], key, if Lower(s.name) == key then 0 else 1);
  }

  lemma {:induction false} SourcesAppend(skills: seq<Skill>, active: map<string, Source>, s: Skill)
    requires Sources(active, skills)
    ensures var key := Lower(s.name);
            Sources(if key in active then active else active[key := s.source], skills + [s])
  {
    var key := Lower(s.name);
    var after := if key in active then active else active[key := s.source];
    forall k ensures SourceAt(after, skills + [s], k) {
      assert SourceAt(active, skills, k);
      FirstAppend(skills, s, k);
    }
  }

  lemma {:induction false} MarkAppend(skills: seq<Skill>, active: map<string, Source>, s: Skill)
    requires SourceAt(active, skills, Lower(s.name))
    ensures var key := Lower(s.name);
            Mark(skills + [s], |skills|) == if key in active then s.(shadowedBy := Some(active[key])) else s
  {
    FirstAppend(skills, s, Lower(s.name));
  }

  lemma {:induction false} MarkKept(skills: seq<Skill>, s: Skill, i: nat)
    requires i < |skills|
    ensures Mark(skills + [s], i) == Mark(skills, i)
  {
    var key := Lower(skills[i].name);
    assert (skills + [s])[i] == skills[i];
    FirstAppend(skills, s, key);
  }

  lemma {:induction false} MarkedAppend(skills: seq<Skill>, list: seq<Skill>, s: Skill, mark: Skill)
    requires Marked(skills, list) && mark == Mark(skills + [s], |skills|)
    ensures Marked(skills + [s], list + [mark])
  {
    forall i | 0 <= i < |skills| ensures (list + [mark])[i] == Mark(skills + [s], i) {
      MarkKept(skills, s, i);
    }
  }

  /** `load_skills_from_roots`: succeeds if and only if every root is readable, and otherwise
      answers the error of the first that is not. */
  method LoadSkills(front: FrontMatter, roots: seq<Root>) returns (r: Result<seq<Skill>, string>)
    ensures r.Ok? <==> Readable(roots, |roots|)
    ensures r.Ok? ==> Marked(SkillsOf(front, roots, |roots|), r.value)
    ensures r.Err? ==> exists i :: 0 <= i < |roots| && Readable(roots, i) && roots[i].entries == Err(r.error)
  {
    var skills: seq<Skill> := [];
    var active: map<string, Source> := map[];
    ghost var all: seq<Skill> := [];
    for i := 0 to |roots|
      invariant Readable(roots, i) && all == SkillsOf(front, roots, i)
      invariant Marked(all, skills) && Sources(active, all)
    {
      var root := roots[i];
      if root.entries.Err? {
        return Err(root.entries.error);
      }
      var found := SkillsOfRoot(front, root);
      var sorted := SortBy(found, NameOf);
      skills, active := AddAll(sorted, skills, active, all);
      all := all + sorted;
    }
    return Ok(skills);
  }

  /** The loop over one root's sorted skills. */
  method AddAll(sorted: seq<Skill>, skills: seq<Skill>, active: map<string, Source>, ghost all: seq<Skill>)
    returns (list: seq<Skill>, after: map<string, Source>)
    requires Marked(all, skills) && Sources(active, all)
    ensures Marked(all + sorted, list) && Sources(after, all + sorted)
  {
    list, after := skills, active;
    ghost var done := all;
    for j := 0 to |sorted|
      invariant done == all + sorted[..j]
      invariant Marked(done, list) && Sources(after, done)
    {
      var skill := sorted[j];
      var key := Lower(skill.name);
      assert SourceAt(after, done, key);
      MarkAppend(done, after, skill);
      SourcesAppend(done, after, skill);
      if key in after {
        skill := skill.(shadowedBy := Some(after[key]));
      } else {
        after := after[key := skill.source];
      }
      MarkedAppend(done, list, sorted[j], skill);
      list := list + [skill];
      done := done + [sorted[j]];
    }
    assert sorted[..|sorted|] == sorted;
  }

  method SkillsOfRoot(front: FrontMatter, root: Root) returns (skills: seq<Skill>)
    requires root.entries.Ok?
    ensures skills == SkillsIn(front, root, root.entries.value)
  {
    var entries := root.entries.value;
    skills := [];
    for i := 0 to |entries|
      invariant skills == SkillsIn(front, root, entries[..i])
    {
      assert entries[..i + 1][..i] == entries[..i];
      var skill := SkillAt(front, root, entries[i]);
      if skill.None? {
        continue;
      }
      skills := skills + [skill.value];
    }
    assert entries[..|entries|] == entries;
  }

  // ---------- Resolution ----------

  datatype Resolved = Found(file: SkillPath) | InvalidInput | NotFound | Unreadable(error: string)

  /** The first candidate of a name up to case. */
  function Match(candidates: seq<Candidate>, requested: string): Option<SkillPath> {
    if candidates == [] then None
    else if SameName(candidates[0].name, requested) then Some(candidates[0].file)
    else Match(candidates[1..], requested)
  }

  function SortedCandidates(front: FrontMatter, root: Root): seq<Candidate>
    requires root.entries.Ok?
  {
    SortBy(CandidatesIn(front, root, root.entries.value), CandidateName)
  }

  /** The roots from the `i`-th on are searched in order; one that cannot be read ends the
      search. */
  function Search(front: FrontMatter, roots: seq<Root>, requested: string, i: nat): Resolved
    requires i <= |roots|
    decreases |roots| - i, 2
  {
    if i == |roots| then NotFound else SearchRoot(front, roots, requested, i)
  }

  function SearchRoot(front: FrontMatter, roots: seq<Root>, requested: string, i: nat): Resolved
    requires i < |roots|
    decreases |roots| - i, 1
  {
    if roots[i].entries.Err? then Unreadable(roots[i].entries.error)
    else match Match(SortedCandidates(front, roots[i]), requested)
      case Some(file) => Found(file)
      case None => SearchNext(front, roots, requested, i)
  }

  function SearchNext(front: FrontMatter, roots: seq<Root>, requested: string, i: nat): Resolved
    requires i < |roots|
    decreases |roots| - i, 0
  {
    Search(front, roots, requested, i + 1)
  }

  lemma {:induction false} SearchStep(front: FrontMatter, roots: seq<Root>, requested: string, i: nat)
    requires i < |roots|
    ensures Search(front, roots, requested, i) ==
            if roots[i].entries.Err? then Unreadable(roots[i].entries.error)
            else match Match(SortedCandidates(front, roots[i]), requested)
              case Some(file) => Found(file)
              case None => Search(front, roots, requested, i + 1)
  {
    assert Search(front, roots, requested, i) == SearchRoot(front, roots, requested, i);
    assert SearchNext(front, roots, requested, i) == Search(front, roots, requested, i + 1);
  }

  function Resolve(front: FrontMatter, roots: seq<Root>, skill: string): Resolved {
    if Requested(skill) == "" then InvalidInput else Search(front, roots, Requested(skill), 0)
  }

  /** `resolve_skill_path` over the discovered roots. */
  method ResolveSkillPath(front: FrontMatter, roots: seq<Root>, skill: string) returns (r: Resolved)
    ensures r == Resolve(front, roots, skill)
  {
    var requested := Requested(skill);
    if requested == "" {
      return InvalidInput;
    }
    for i := 0 to |roots|
      invariant Search(front, roots, requested, 0) == Search(front, roots, requested, i)
    {
      var root := roots[i];
      SearchStep(front, roots, requested, i);
      if root.entries.Err? {
        return Unreadable(root.entries.error);
      }
      var entries := root.entries.value;
      var candidates: seq<Candidate> := [];
      for j := 0 to |entries|
        invariant candidates == CandidatesIn(front, root, entries[..j])
      {
        assert entries[..j + 1][..j] == entries[..j];
        var candidate := CandidateAt(front, root, entries[j]);
        if candidate.None? {
          continue;
        }
        candidates := candidates + [candidate.value];
      }
      assert entries[..|entries|] == entries;
      var file := Match(SortBy(candidates, CandidateName), requested);
      if file.Some? {
        return Found(file.value);
      }
    }
    return NotFound;
  }
}
