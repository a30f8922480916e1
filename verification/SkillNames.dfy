/** Which name a request asks for, and which skills are listed under which names, said by
    the request's characters and the directories' entries. */
module SkillNames {
  import opened Text
  import opened Ordering
  import opened Skills
  import SkillsAgree

  // ---------- Requests ----------

  predicate Only(s: string, c: char) {
    forall d :: d in s ==> d == c
  }

  /** The request is the name between blanks, after slashes and then dollars. */
  ghost predicate AsksFor(skill: string, w: string, slashes: string, dollars: string, name: string, u: string) {
    && AllBlank(w) && AllBlank(u) && Only(slashes, '/') && Only(dollars, '$')
    && IsTrimmed(slashes + (dollars + name))
    && (name != "" ==> name[0] != '$')
    && (dollars + name != "" ==> (dollars + name)[0] != '/')
    && skill == w + (slashes + (dollars + name) + u)
  }

  /** What is requested is the name, and every request has this form. */
  lemma {:induction false} RequestedExactly(skill: string, name: string)
    ensures Requested(skill) == name <==> exists w, slashes, dollars, u :: AsksFor(skill, w, slashes, dollars, name, u)
  {
    if Requested(skill) == name {
      var w, u := TrimSplit(skill);
      var slashes := LeadingSplit(Trim(skill), '/');
      var dollars := LeadingSplit(TrimLeading(Trim(skill), '/'), '$');
      TrimIsTrimmed(skill);
      assert AsksFor(skill, w, slashes, dollars, name, u);
    }
    if w, slashes, dollars, u :| AsksFor(skill, w, slashes, dollars, name, u) {
      TrimBetween(w, slashes + (dollars + name), u);
      LeadingGone(slashes, dollars + name, '/');
      LeadingGone(dollars, name, '$');
    }
  }

  lemma {:induction false} TrimSplit(s: string) returns (w: string, u: string)
    ensures AllBlank(w) && AllBlank(u) && s == w + (Trim(s) + u)
  {
    w := StartSplit(s);
    u := EndSplit(TrimStart(s));
  }

  lemma {:induction false} StartSplit(s: string) returns (w: string)
    ensures AllBlank(w) && s == w + TrimStart(s)
  {
    w := "";
    if s != "" && IsWhitespace(s[0]) {
      var more := StartSplit(s[1..]);
      w := [s[0]] + more;
      assert s == [s[0]] + s[1..];
    }
  }

  lemma {:induction false} EndSplit(s: string) returns (u: string)
    ensures AllBlank(u) && s == TrimEnd(s) + u
    decreases |s|
  {
    u := "";
    if s != "" && IsWhitespace(s[|s| - 1]) {
      var more := EndSplit(s[..|s| - 1]);
      u := more + [s[|s| - 1]];
      assert s == s[..|s| - 1] + [s[|s| - 1]];
    }
  }

  lemma {:induction false} LeadingSplit(s: string, c: char) returns (front: string)
    ensures Only(front, c) && s == front + TrimLeading(s, c)
    ensures TrimLeading(s, c) != "" ==> TrimLeading(s, c)[0] != c
  {
    front := "";
    if s != "" && s[0] == c {
      var more := LeadingSplit(s[1..], c);
      front := [c] + more;
    }
  }

  lemma {:induction false} LeadingGone(front: string, s: string, c: char)
    requires Only(front, c) && (s != "" ==> s[0] != c)
    ensures TrimLeading(front + s, c) == s
  {
    if front == "" {
      assert front + s == s;
    } else {
      assert front[0] in front && (front + s)[1..] == front[1..] + s;
      forall d | d in front[1..] ensures d == c {
        assert d in front;
      }
      LeadingGone(front[1..], s, c);
    }
  }

  // ---------- Entries ----------

  /** A file of a legacy commands directory is a skill exactly when it has a stem and the
      extension `md` in any case; its stem then stands for a missing name. */
  lemma {:induction false} MarkdownFiles(stem: string, extension: string)
    requires stem != "" && '.' !in extension
    ensures Stem(stem + ("." + extension)) == stem
    ensures IsMarkdown(stem + ("." + extension)) <==> Lower(extension) == "md"
  {
    var file := stem + ("." + extension);
    LastDotAt(file, |file|, |stem|);
    assert file[..|stem|] == stem && file[|stem| + 1..] == extension;
    SameNameIsLower(extension, "md");
    assert Lower("md") == "md";
  }

  lemma {:induction false} LastDotAt(file: string, n: nat, dot: nat)
    requires 0 < dot < n <= |file| && file[dot] == '.' && forall i :: dot < i < n ==> file[i] != '.'
    ensures LastDot(file, n) == dot
  {
    if n - 1 > dot { LastDotAt(file, n - 1, dot); }
  }

  /** A name without a dot after its first character has no extension. */
  lemma {:induction false} NoExtension(file: string)
    requires forall i :: 0 < i < |file| ==> file[i] != '.'
    ensures Stem(file) == file && !IsMarkdown(file)
  {
    NoDotBefore(file, |file|);
  }

  lemma {:induction false} NoDotBefore(file: string, n: nat)
    requires n <= |file| && forall i :: 0 < i < n ==> file[i] != '.'
    ensures LastDot(file, n) == 0
  {
    if n > 1 { NoDotBefore(file, n - 1); }
  }

  /** What an entry may be a skill by: the `SKILL.md` of a directory or, in a legacy commands
      directory, a Markdown file; with the name it goes by when its text has none. */
  ghost predicate IsSkill(origin: Origin, e: Entry, contents: string, fallback: string) {
    || (e.node == Directory(Some(contents)) && fallback == if origin.SkillsDir? then e.file else "SKILL")
    || (origin.LegacyCommandsDir? && e.node == File(contents) && IsMarkdown(e.file) && fallback == Stem(e.file))
  }

  /** The skill made of such an entry goes by the name in its text, has its root's source and
      origin, and is not shadowed yet. Only such entries are skills. */
  lemma {:induction false} EntryExactly(front: FrontMatter, root: Root, e: Entry)
    ensures SkillAt(front, root, e).Some? <==> exists contents, fallback :: IsSkill(root.origin, e, contents, fallback)
    ensures forall contents, fallback :: IsSkill(root.origin, e, contents, fallback) ==>
              SkillAt(front, root, e) ==
              Some(Skill(if front(contents).Some? then front(contents).value else fallback, root.source, None,
                         root.origin,
                         if root.origin.LegacyCommandsDir? && e.node.Directory? then SkillFile(root.path, e.file)
                         else InRoot(root.path, e.file)))
  {
    if SkillAt(front, root, e).Some? {
      if e.node.Directory? {
        var fallback := if root.origin.SkillsDir? then e.file else "SKILL";
        assert IsSkill(root.origin, e, e.node.skill.value, fallback);
      } else {
        assert IsSkill(root.origin, e, e.node.contents, Stem(e.file));
      }
    }
  }

  // ---------- The listing ----------

  /** The skill is made of an entry of the `i`-th root. */
  ghost predicate MadeOf(front: FrontMatter, roots: seq<Root>, i: nat, s: Skill) {
    i < |roots| && roots[i].entries.Ok? &&
    exists e :: e in roots[i].entries.value && SkillAt(front, roots[i], e) == Some(s)
  }

  lemma {:induction false} EntriesListed(front: FrontMatter, root: Root, entries: seq<Entry>, s: Skill)
    ensures s in SkillsIn(front, root, entries) <==> exists e :: e in entries && SkillAt(front, root, e) == Some(s)
  {
    if entries != [] {
      var n := |entries| - 1;
      EntriesListed(front, root, entries[..n], s);
      assert entries == entries[..n] + [entries[n]];
      assert entries[n] in entries;
    }
  }

  lemma {:induction false} RootListed(front: FrontMatter, roots: seq<Root>, i: nat, s: Skill)
    requires i < |roots| && roots[i].entries.Ok?
    ensures s in SortedSkills(front, roots[i]) <==> MadeOf(front, roots, i, s)
  {
    var found := SkillsIn(front, roots[i], roots[i].entries.value);
    EntriesListed(front, roots[i], roots[i].entries.value, s);
    SortBySorts(found, NameOf);
    SkillsAgree.SameMembers(found, SortBy(found, NameOf));
  }

  /** Listed is what an entry of one of the roots makes a skill. */
  lemma {:induction false} ListedExactly(front: FrontMatter, roots: seq<Root>, n: nat, s: Skill)
    requires n <= |roots| && Readable(roots, n)
    ensures s in SkillsOf(front, roots, n) <==> exists i: nat :: i < n && MadeOf(front, roots, i, s)
  {
    if n > 0 {
      ListedExactly(front, roots, n - 1, s);
      RootListed(front, roots, n - 1, s);
    }
  }

  /** Of two listed skills the first is made in an earlier root, or in the same and has the
      name that does not come later. */
  ghost predicate InTurn(front: FrontMatter, roots: seq<Root>, s: Skill, t: Skill) {
    exists i: nat, k: nat ::
      MadeOf(front, roots, i, s) && MadeOf(front, roots, k, t) && (i < k || (i == k && LessEq(s.name, t.name)))
  }

  lemma {:induction false} ListedInTurn(front: FrontMatter, roots: seq<Root>, n: nat, p: nat, q: nat)
    requires n <= |roots| && Readable(roots, n) && p < q < |SkillsOf(front, roots, n)|
    ensures InTurn(front, roots, SkillsOf(front, roots, n)[p], SkillsOf(front, roots, n)[q])
  {
    var all := SkillsOf(front, roots, n);
    var before, here := SkillsOf(front, roots, n - 1), SortedSkills(front, roots[n - 1]);
    assert all == before + here;
    if q < |before| {
      ListedInTurn(front, roots, n - 1, p, q);
    } else {
      assert all[q] == here[q - |before|];
      if p < |before| {
        EarlierInTurn(front, roots, n - 1, p, q - |before|);
      } else {
        RootInTurn(front, roots, n - 1, p - |before|, q - |before|);
      }
    }
  }

  lemma {:induction false} EarlierInTurn(front: FrontMatter, roots: seq<Root>, n: nat, p: nat, q: nat)
    requires n < |roots| && Readable(roots, n + 1)
    requires p < |SkillsOf(front, roots, n)| && q < |SortedSkills(front, roots[n])|
    ensures InTurn(front, roots, SkillsOf(front, roots, n)[p], SortedSkills(front, roots[n])[q])
  {
    var s, t := SkillsOf(front, roots, n)[p], SortedSkills(front, roots[n])[q];
    ListedExactly(front, roots, n, s);
    RootListed(front, roots, n, t);
    var i: nat :| i < n && MadeOf(front, roots, i, s);
  }

  lemma {:induction false} RootInTurn(front: FrontMatter, roots: seq<Root>, i: nat, p: nat, q: nat)
    requires i < |roots| && roots[i].entries.Ok? && p < q < |SortedSkills(front, roots[i])|
    ensures InTurn(front, roots, SortedSkills(front, roots[i])[p], SortedSkills(front, roots[i])[q])
  {
    var here := SortedSkills(front, roots[i]);
    RootListed(front, roots, i, here[p]);
    RootListed(front, roots, i, here[q]);
    SortBySorts(SkillsIn(front, roots[i], roots[i].entries.value), NameOf);
  }
}
