/** The aggregation `GET /api/github/:username` performs on an already parsed
    GraphQL response (backend/routes/github.route.js): the top six
    repositories by stars, per-language size totals, and the contribution
    calendar flattened into one list of days. */
module GitHubStats {
  import opened Wrappers

  // ---------------------------------------------------------------------------
  // The GraphQL response
  // ---------------------------------------------------------------------------

  datatype LanguageEdge = LanguageEdge(size: int, name: string)

  datatype RepoNode = RepoNode(
    name: string,
    url: string,
    description: Option<string>,
    stargazerCount: int,
    forkCount: int,
    languages: seq<LanguageEdge>)

  datatype ContributionDay = ContributionDay(date: string, contributionCount: int, color: string)

  datatype Week = Week(contributionDays: seq<ContributionDay>)

  datatype GitHubUser = GitHubUser(
    login: string,
    name: Option<string>,
    avatarUrl: string,
    bio: Option<string>,
    followers: int,
    following: int,
    repositories: seq<RepoNode>,
    totalContributions: int,
    weeks: seq<Week>,
    totalCommitContributions: int)

  // ---------------------------------------------------------------------------
  // The response body
  // ---------------------------------------------------------------------------

  datatype Language = Language(name: string, size: int)

  datatype TopRepo = TopRepo(
    name: string,
    url: string,
    description: Option<string>,
    stars: int,
    forks: int,
    languages: seq<Language>)

  datatype ProfileSummary = ProfileSummary(
    login: string,
    name: Option<string>,
    avatarUrl: string,
    bio: Option<string>,
    followers: int,
    following: int)

  datatype Contributions = Contributions(
    totalContributions: int,
    totalCommits: int,
    heatmap: seq<ContributionDay>)

  datatype Stats = Stats(
    profile: ProfileSummary,
    topRepos: seq<TopRepo>,
    contributions: Contributions,
    languages: seq<Language>)

  /** The one failure of the aggregation itself: the response had no user (404). */
  datatype StatsError = UserNotFound

  const TOP_REPO_COUNT := 6

  // ---------------------------------------------------------------------------
  // Sorting by stars
  // ---------------------------------------------------------------------------

  predicate SortedByStarsDesc(s: seq<RepoNode>) {
    forall i, j :: 0 <= i < j < |s| ==> s[i].stargazerCount >= s[j].stargazerCount
  }

  /** Places `x` after every element with at least as many stars. */
  function InsertByStars(x: RepoNode, s: seq<RepoNode>): (r: seq<RepoNode>)
    requires SortedByStarsDesc(s)
    ensures |r| == |s| + 1
    ensures s != [] ==> r[0] == s[0] || r[0] == x
    ensures SortedByStarsDesc(r)
    ensures multiset(r) == multiset(s) + multiset{x}
  {
    if s == [] then [x]
    else if s[0].stargazerCount >= x.stargazerCount then
      assert s == [s[0]] + s[1..];
      [s[0]] + InsertByStars(x, s[1..])
    else [x] + s
  }

  /** `nodes.sort((a, b) => b.stargazerCount - a.stargazerCount)`: a stable
      sort into non-increasing star order. */
  function SortByStars(s: seq<RepoNode>): (r: seq<RepoNode>)
    ensures |r| == |s|
    ensures SortedByStarsDesc(r)
    ensures multiset(r) == multiset(s)
  {
    if s == [] then []
    else
      assert s == s[..|s| - 1] + [s[|s| - 1]];
      InsertByStars(s[|s| - 1], SortByStars(s[..|s| - 1]))
  }

  function ProjectLanguage(e: LanguageEdge): Language {
    Language(e.name, e.size)
  }

  /** The field-for-field mapping of one repository node. */
  function ProjectRepo(n: RepoNode): (t: TopRepo)
    ensures t.name == n.name && t.url == n.url && t.description == n.description
    ensures t.stars == n.stargazerCount && t.forks == n.forkCount
    ensures |t.languages| == |n.languages|
    ensures forall k :: 0 <= k < |n.languages| ==>
      t.languages[k].name == n.languages[k].name && t.languages[k].size == n.languages[k].size
  {
    TopRepo(n.name, n.url, n.description, n.stargazerCount, n.forkCount,
            seq(|n.languages|, k requires 0 <= k < |n.languages| => ProjectLanguage(n.languages[k])))
  }

  function Min(a: int, b: int): int {
    if a <= b then a else b
  }

  /** `.slice(0, 6).map(...)` of the sorted nodes. */
  function TopRepos(sorted: seq<RepoNode>): (top: seq<TopRepo>)
    ensures |top| == Min(TOP_REPO_COUNT, |sorted|)
    ensures forall k :: 0 <= k < |top| ==> top[k] == ProjectRepo(sorted[k])
  {
    var n := Min(TOP_REPO_COUNT, |sorted|);
    seq(n, k requires 0 <= k < n => ProjectRepo(sorted[k]))
  }

  /** The top repositories: at most six, in non-increasing star order, each
      the projection of an input node, and no left-out node has more stars
      than any chosen one. */
  lemma TopReposAreTheMostStarred(nodes: seq<RepoNode>)
    ensures var sorted := SortByStars(nodes); var top := TopRepos(sorted);
      && |top| == Min(6, |nodes|)
      && (forall i, j :: 0 <= i < j < |top| ==> top[i].stars >= top[j].stars)
      && (forall k :: 0 <= k < |top| ==> exists n :: n in nodes && top[k] == ProjectRepo(n))
      && (forall k, m :: 0 <= k < |top| && |top| <= m < |sorted| ==> sorted[m].stargazerCount <= top[k].stars)
  {
    var sorted := SortByStars(nodes);
    var top := TopRepos(sorted);
    forall k | 0 <= k < |top| ensures exists n :: n in nodes && top[k] == ProjectRepo(n) {
      assert sorted[k] in multiset(sorted);
      assert sorted[k] in nodes;
    }
  }

  // ---------------------------------------------------------------------------
  // Language totals
  // ---------------------------------------------------------------------------

  /** Every language edge of every repository, repository by repository. */
  function AllEdges(repos: seq<RepoNode>): seq<LanguageEdge> {
    if repos == [] then [] else AllEdges(repos[..|repos| - 1]) + repos[|repos| - 1].languages
  }

  /** Some edge carries the language `name`. */
  predicate Occurs(edges: seq<LanguageEdge>, name: string) {
    exists k :: 0 <= k < |edges| && edges[k].name == name
  }

  /** The reference definition: the sum of `size` over the edges named `name`. */
  function SizeOf(edges: seq<LanguageEdge>, name: string): int {
    if edges == [] then 0
    else SizeOf(edges[..|edges| - 1], name) + (if edges[|edges| - 1].name == name then edges[|edges| - 1].size else 0)
  }

  function Names(langs: seq<Language>): set<string> {
    set k | 0 <= k < |langs| :: langs[k].name
  }

  predicate NamesDistinct(langs: seq<Language>) {
    forall i, j :: 0 <= i < j < |langs| ==> langs[i].name != langs[j].name
  }

  lemma NamesCons(x: Language, rest: seq<Language>)
    ensures Names([x] + rest) == {x.name} + Names(rest)
  {
    var s := [x] + rest;
    forall n | n in Names(s) ensures n in {x.name} + Names(rest) {
      var k :| 0 <= k < |s| && s[k].name == n;
      if k > 0 {
        assert rest[k - 1].name == n;
      }
    }
    forall n | n in Names(rest) ensures n in Names(s) {
      var k :| 0 <= k < |rest| && rest[k].name == n;
      assert s[k + 1].name == n;
    }
    assert s[0].name == x.name;
  }

  /** The size recorded for `name` (which must be present). */
  function LookUp(langs: seq<Language>, name: string): int
    requires name in Names(langs)
  {
    if langs[0].name == name then langs[0].size
    else
      NamesCons(langs[0], langs[1..]);
      assert langs == [langs[0]] + langs[1..];
      LookUp(langs[1..], name)
  }

  lemma {:induction false} LookUpAt(langs: seq<Language>, k: nat)
    requires NamesDistinct(langs) && k < |langs|
    ensures LookUp(langs, langs[k].name) == langs[k].size
  {
    if k > 0 {
      assert langs[k] == langs[1..][k - 1];
      LookUpAt(langs[1..], k - 1);
    }
  }

  /** `languages[name] = (languages[name] || 0) + size` on an object whose
      entries are kept in first-insertion order: the entry for `name` grows by
      `size` (or is appended), and every other entry stays as it was. */
  function AddSize(acc: seq<Language>, name: string, size: int): (r: seq<Language>)
    requires NamesDistinct(acc)
    ensures NamesDistinct(r)
    ensures Names(r) == Names(acc) + {name}
  {
    if acc == [] then
      NamesCons(Language(name, size), []);
      [Language(name, size)]
    else
      assert acc == [acc[0]] + acc[1..];
      NamesCons(acc[0], acc[1..]);
      if acc[0].name == name then
        NamesCons(Language(name, acc[0].size + size), acc[1..]);
        [Language(name, acc[0].size + size)] + acc[1..]
      else
        var rest := AddSize(acc[1..], name, size);
        NamesCons(acc[0], rest);
        [acc[0]] + rest
  }

  /** After one addition, the entry for `name` holds the old total plus
      `size`, and every other entry is one that was there before. */
  lemma {:induction false} AddSizeAt(acc: seq<Language>, name: string, size: int, k: nat)
    requires NamesDistinct(acc) && k < |AddSize(acc, name, size)|
    ensures var r := AddSize(acc, name, size);
      && (r[k].name != name ==> r[k] in acc)
      && (r[k].name == name ==> r[k].size == size + (if name in Names(acc) then LookUp(acc, name) else 0))
  {
    if acc != [] {
      assert acc == [acc[0]] + acc[1..];
      NamesCons(acc[0], acc[1..]);
      if acc[0].name == name {
        if k > 0 {
          assert AddSize(acc, name, size)[k] == acc[k];
        }
      } else if k > 0 {
        AddSizeAt(acc[1..], name, size, k - 1);
      }
    }
  }

  /** The totals after folding every edge, in order. */
  function LanguageTotals(edges: seq<LanguageEdge>): (r: seq<Language>)
    ensures NamesDistinct(r)
  {
    if edges == [] then []
    else
      var e := edges[|edges| - 1];
      AddSize(LanguageTotals(edges[..|edges| - 1]), e.name, e.size)
  }

  lemma TotalsSnoc(prefix: seq<LanguageEdge>, e: LanguageEdge)
    ensures LanguageTotals(prefix + [e]) == AddSize(LanguageTotals(prefix), e.name, e.size)
  {
    assert (prefix + [e])[..|prefix|] == prefix;
  }

  lemma TotalsStep(done: seq<LanguageEdge>, edges: seq<LanguageEdge>, e: nat)
    requires e < |edges|
    ensures LanguageTotals(done + edges[..e + 1])
      == AddSize(LanguageTotals(done + edges[..e]), edges[e].name, edges[e].size)
  {
    assert done + edges[..e + 1] == (done + edges[..e]) + [edges[e]];
    TotalsSnoc(done + edges[..e], edges[e]);
  }

  lemma OccursSnoc(edges: seq<LanguageEdge>, name: string)
    requires edges != []
    ensures Occurs(edges, name) <==> Occurs(edges[..|edges| - 1], name) || edges[|edges| - 1].name == name
  {
    var prefix := edges[..|edges| - 1];
    if Occurs(prefix, name) {
      var k :| 0 <= k < |prefix| && prefix[k].name == name;
      assert edges[k].name == name;
    }
    if Occurs(edges, name) {
      var k :| 0 <= k < |edges| && edges[k].name == name;
      if k < |prefix| {
        assert prefix[k].name == name;
      }
    }
  }

  /** A language has an entry exactly when some edge carries it. */
  lemma {:induction false} TotalsNames(edges: seq<LanguageEdge>, name: string)
    ensures name in Names(LanguageTotals(edges)) <==> Occurs(edges, name)
  {
    if edges != [] {
      TotalsNames(edges[..|edges| - 1], name);
      OccursSnoc(edges, name);
    }
  }

  /** A language no edge carries sums to zero. */
  lemma {:induction false} SizeOfAbsent(edges: seq<LanguageEdge>, name: string)
    requires !Occurs(edges, name)
    ensures SizeOf(edges, name) == 0
  {
    if edges != [] {
      OccursSnoc(edges, name);
      SizeOfAbsent(edges[..|edges| - 1], name);
    }
  }

  /** Every entry's size is the reference sum for its language. */
  lemma {:induction false} TotalsSizes(edges: seq<LanguageEdge>, k: nat)
    requires k < |LanguageTotals(edges)|
    ensures LanguageTotals(edges)[k].size == SizeOf(edges, LanguageTotals(edges)[k].name)
  {
    var prefix := edges[..|edges| - 1];
    var e := edges[|edges| - 1];
    var acc := LanguageTotals(prefix);
    var r := LanguageTotals(edges);
    var name := r[k].name;
    AddSizeAt(acc, e.name, e.size, k);
    if name == e.name {
      if name in Names(acc) {
        var m :| 0 <= m < |acc| && acc[m].name == name;
        LookUpAt(acc, m);
        TotalsSizes(prefix, m);
      } else {
        TotalsNames(prefix, name);
        SizeOfAbsent(prefix, name);
      }
    } else {
      assert r[k] in acc;
      var m :| 0 <= m < |acc| && acc[m] == r[k];
      TotalsSizes(prefix, m);
    }
  }

  /** `languagesArray` has exactly one entry per language that occurs, and each
      entry's size is the sum over all edges of that language. */
  lemma LanguageTotalsCorrect(edges: seq<LanguageEdge>)
    ensures var r := LanguageTotals(edges);
      && NamesDistinct(r)
      && (forall name :: name in Names(r) <==> Occurs(edges, name))
      && (forall k :: 0 <= k < |r| ==> r[k].size == SizeOf(edges, r[k].name))
  {
    forall name ensures name in Names(LanguageTotals(edges)) <==> Occurs(edges, name) {
      TotalsNames(edges, name);
    }
    forall k | 0 <= k < |LanguageTotals(edges)|
      ensures LanguageTotals(edges)[k].size == SizeOf(edges, LanguageTotals(edges)[k].name)
    {
      TotalsSizes(edges, k);
    }
  }

  lemma AllEdgesSnoc(repos: seq<RepoNode>, r: nat)
    requires r < |repos|
    ensures AllEdges(repos[..r + 1]) == AllEdges(repos[..r]) + repos[r].languages
  {
    assert repos[..r + 1][..r] == repos[..r];
  }

  /** The reference total of one language, repository by repository. */
  function RepoTotal(repos: seq<RepoNode>, name: string): int {
    if repos == [] then 0
    else RepoTotal(repos[..|repos| - 1], name) + SizeOf(repos[|repos| - 1].languages, name)
  }

  lemma {:induction false} SizeOfAppend(a: seq<LanguageEdge>, b: seq<LanguageEdge>, name: string)
    ensures SizeOf(a + b, name) == SizeOf(a, name) + SizeOf(b, name)
  {
    if b != [] {
      assert (a + b)[..|a + b| - 1] == a + b[..|b| - 1];
      SizeOfAppend(a, b[..|b| - 1], name);
    } else {
      assert a + b == a;
    }
  }

  lemma {:induction false} SizeOfAllEdges(repos: seq<RepoNode>, name: string)
    ensures SizeOf(AllEdges(repos), name) == RepoTotal(repos, name)
  {
    if repos != [] {
      SizeOfAllEdges(repos[..|repos| - 1], name);
      SizeOfAppend(AllEdges(repos[..|repos| - 1]), repos[|repos| - 1].languages, name);
    }
  }

  lemma {:induction false} RepoTotalAppend(a: seq<RepoNode>, b: seq<RepoNode>, name: string)
    ensures RepoTotal(a + b, name) == RepoTotal(a, name) + RepoTotal(b, name)
  {
    if b != [] {
      assert (a + b)[..|a + b| - 1] == a + b[..|b| - 1];
      RepoTotalAppend(a, b[..|b| - 1], name);
    } else {
      assert a + b == a;
    }
  }

  /** Totals do not depend on the order of the repositories, so sorting them
      first changes no total. */
  lemma {:induction false} RepoTotalPermutation(a: seq<RepoNode>, b: seq<RepoNode>, name: string)
    requires multiset(a) == multiset(b)
    ensures RepoTotal(a, name) == RepoTotal(b, name)
  {
    if a == [] {
      assert |b| == |multiset(b)| == 0;
    } else {
      var n := |a|;
      var x := a[n - 1];
      assert a == a[..n - 1] + [x];
      assert x in multiset(b);
      var i :| 0 <= i < |b| && b[i] == x;
      var rest := b[..i] + b[i + 1..];
      assert b == b[..i] + [x] + b[i + 1..];
      assert multiset(b) == multiset(b[..i]) + multiset{x} + multiset(b[i + 1..]);
      assert multiset(a) == multiset(a[..n - 1]) + multiset{x};
      assert multiset(rest) == multiset(b[..i]) + multiset(b[i + 1..]);
      assert multiset(rest) == multiset(b) - multiset{x};
      assert multiset(a[..n - 1]) == multiset(a) - multiset{x};
      RepoTotalPermutation(a[..n - 1], rest, name);
      RepoTotalAppend(b[..i] + [x], b[i + 1..], name);
      RepoTotalAppend(b[..i], [x], name);
      RepoTotalAppend(b[..i], b[i + 1..], name);
      assert RepoTotal([x], name) == SizeOf(x.languages, name) by {
        assert [x][..0] == [];
      }
    }
  }

  lemma OccursAppend(a: seq<LanguageEdge>, b: seq<LanguageEdge>, name: string)
    ensures Occurs(a + b, name) <==> Occurs(a, name) || Occurs(b, name)
  {
    if Occurs(a + b, name) {
      var k :| 0 <= k < |a + b| && (a + b)[k].name == name;
      if k >= |a| {
        assert b[k - |a|].name == name;
      }
    }
    if Occurs(a, name) {
      var k :| 0 <= k < |a| && a[k].name == name;
      assert (a + b)[k].name == name;
    }
    if Occurs(b, name) {
      var k :| 0 <= k < |b| && b[k].name == name;
      assert (a + b)[|a| + k].name == name;
    }
  }

  /** A language occurs among all edges exactly when some repository lists it. */
  lemma {:induction false} OccursAllEdges(repos: seq<RepoNode>, name: string)
    ensures Occurs(AllEdges(repos), name) <==> exists n :: n in repos && Occurs(n.languages, name)
  {
    if repos != [] {
      var prefix := repos[..|repos| - 1];
      var last := repos[|repos| - 1];
      OccursAllEdges(prefix, name);
      OccursAppend(AllEdges(prefix), last.languages, name);
      assert repos == prefix + [last];
      if exists n :: n in repos && Occurs(n.languages, name) {
        var n :| n in repos && Occurs(n.languages, name);
        if n != last {
          assert n in prefix;
        }
      }
    }
  }

  /** The languages of the response: one entry per language some repository
      lists, names distinct, and each size the sum over all repositories,
      whatever order they arrived in. */
  lemma AggregateLanguagesAreTotals(u: GitHubUser)
    ensures var langs := Aggregate(Some(u)).value.languages;
      && NamesDistinct(langs)
      && (forall name :: name in Names(langs) <==> exists n :: n in u.repositories && Occurs(n.languages, name))
      && (forall k :: 0 <= k < |langs| ==> langs[k].size == RepoTotal(u.repositories, langs[k].name))
  {
    var sorted := SortByStars(u.repositories);
    var langs := LanguageTotals(AllEdges(sorted));
    LanguageTotalsCorrect(AllEdges(sorted));
    forall name ensures name in Names(langs) <==> exists n :: n in u.repositories && Occurs(n.languages, name) {
      OccursAllEdges(sorted, name);
      if exists n :: n in sorted && Occurs(n.languages, name) {
        var n :| n in sorted && Occurs(n.languages, name);
        assert n in multiset(sorted);
      }
      if exists n :: n in u.repositories && Occurs(n.languages, name) {
        var n :| n in u.repositories && Occurs(n.languages, name);
        assert n in multiset(u.repositories);
      }
    }
    forall k | 0 <= k < |langs| ensures langs[k].size == RepoTotal(u.repositories, langs[k].name) {
      SizeOfAllEdges(sorted, langs[k].name);
      RepoTotalPermutation(sorted, u.repositories, langs[k].name);
    }
  }

  /** The inner `forEach`: folds one repository's edges into the totals. */
  method AddEdges(totals: seq<Language>, done: seq<LanguageEdge>, edges: seq<LanguageEdge>) returns (r: seq<Language>)
    requires totals == LanguageTotals(done)
    ensures r == LanguageTotals(done + edges)
  {
    r := totals;
    var e := 0;
    assert done + edges[..0] == done;
    while e < |edges|
      invariant 0 <= e <= |edges|
      invariant r == LanguageTotals(done + edges[..e])
    {
      TotalsStep(done, edges, e);
      r := AddSize(r, edges[e].name, edges[e].size);
      e := e + 1;
    }
    assert edges[..e] == edges;
  }

  /** The two nested `forEach` loops that fill the totals object. */
  method AggregateLanguages(repos: seq<RepoNode>) returns (totals: seq<Language>)
    ensures totals == LanguageTotals(AllEdges(repos))
  {
    totals := [];
    var r := 0;
    while r < |repos|
      invariant 0 <= r <= |repos|
      invariant totals == LanguageTotals(AllEdges(repos[..r]))
    {
      totals := AddEdges(totals, AllEdges(repos[..r]), repos[r].languages);
      AllEdgesSnoc(repos, r);
      r := r + 1;
    }
    assert repos[..r] == repos;
  }

  // ---------------------------------------------------------------------------
  // Contribution calendar
  // ---------------------------------------------------------------------------

  /** Every day of every week, weeks in order and days in order within a week. */
  function FlattenWeeks(weeks: seq<Week>): seq<ContributionDay> {
    if weeks == [] then [] else FlattenWeeks(weeks[..|weeks| - 1]) + weeks[|weeks| - 1].contributionDays
  }

  /** Where week `w` starts in the flattened list. */
  function WeekOffset(weeks: seq<Week>, w: nat): nat
    requires w <= |weeks|
  {
    if w == 0 then 0 else WeekOffset(weeks, w - 1) + |weeks[w - 1].contributionDays|
  }

  /** Offsets depend only on the weeks before. */
  lemma {:induction false} OffsetOfPrefix(weeks: seq<Week>, m: nat, w: nat)
    requires w <= m <= |weeks|
    ensures WeekOffset(weeks[..m], w) == WeekOffset(weeks, w)
  {
    if w > 0 {
      assert weeks[..m][w - 1] == weeks[w - 1];
      OffsetOfPrefix(weeks, m, w - 1);
    }
  }

  /** The flattened list holds exactly the days of all weeks. */
  lemma {:induction false} FlattenWeeksLength(weeks: seq<Week>)
    ensures |FlattenWeeks(weeks)| == WeekOffset(weeks, |weeks|)
  {
    if weeks != [] {
      var n := |weeks|;
      FlattenWeeksLength(weeks[..n - 1]);
      OffsetOfPrefix(weeks, n - 1, n - 1);
    }
  }

  /** Day `d` of week `w` sits at `WeekOffset(weeks, w) + d`: weeks in order,
      days in order within each week. */
  lemma {:induction false} FlattenWeeksAt(weeks: seq<Week>, w: nat, d: nat)
    requires w < |weeks| && d < |weeks[w].contributionDays|
    ensures WeekOffset(weeks, w) + d < |FlattenWeeks(weeks)|
    ensures FlattenWeeks(weeks)[WeekOffset(weeks, w) + d] == weeks[w].contributionDays[d]
  {
    var n := |weeks|;
    var prefix := weeks[..n - 1];
    assert FlattenWeeks(weeks) == FlattenWeeks(prefix) + weeks[n - 1].contributionDays;
    FlattenWeeksLength(prefix);
    OffsetOfPrefix(weeks, n - 1, w);
    if w < n - 1 {
      assert prefix[w] == weeks[w];
      FlattenWeeksAt(prefix, w, d);
    } else {
      OffsetOfPrefix(weeks, n - 1, n - 1);
    }
  }

  /** The nested `forEach`/`push` loops that build the heatmap. */
  method FlattenContributionDays(weeks: seq<Week>) returns (days: seq<ContributionDay>)
    ensures days == FlattenWeeks(weeks)
  {
    days := [];
    var w := 0;
    while w < |weeks|
      invariant 0 <= w <= |weeks|
      invariant days == FlattenWeeks(weeks[..w])
    {
      var week := weeks[w].contributionDays;
      var d := 0;
      while d < |week|
        invariant 0 <= d <= |week|
        invariant days == FlattenWeeks(weeks[..w]) + week[..d]
      {
        assert week[..d + 1] == week[..d] + [week[d]];
        days := days + [week[d]];
        d := d + 1;
      }
      assert weeks[..w + 1][..w] == weeks[..w];
      assert week[..d] == week;
      w := w + 1;
    }
    assert weeks[..w] == weeks;
  }

  // ---------------------------------------------------------------------------
  // The route body
  // ---------------------------------------------------------------------------

  /** The response for a parsed GraphQL answer: 404 when there is no user;
      otherwise the profile fields, the top repositories, the totals over all
      repositories (in the sorted order the in-place sort leaves behind) and
      the flattened calendar. */
  function Aggregate(user: Option<GitHubUser>): (r: Result<Stats, StatsError>)
    ensures r.Failure? <==> user.None?
    ensures r.Success? ==>
      && |r.value.topRepos| == Min(6, |user.value.repositories|)
      && r.value.contributions.heatmap == FlattenWeeks(user.value.weeks)
      && NamesDistinct(r.value.languages)
  {
    match user
    case None => Failure(UserNotFound)
    case Some(u) =>
      var sorted := SortByStars(u.repositories);
      Success(Stats(
        ProfileSummary(u.login, u.name, u.avatarUrl, u.bio, u.followers, u.following),
        TopRepos(sorted),
        Contributions(u.totalContributions, u.totalCommitContributions, FlattenWeeks(u.weeks)),
        LanguageTotals(AllEdges(sorted))))
  }
}
