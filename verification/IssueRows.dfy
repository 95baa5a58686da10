/**
 * The issue as fetched from GitHub (the parsed JSON of `gh issue view`), its
 * flattening into one row per post, and the two ways the pipeline collects the
 * people who took part: from the rows, and from the issue itself.
 */
module IssueRows {
  import opened Wrappers
  import opened PyStr
  import opened Seqs

  /** A comment: the author's login (`None` when the JSON has none), its time and its text. */
  datatype Comment = Comment(author: Option<string>, createdAt: string, body: string)

  /** An issue with its label names and its comments in thread order. */
  datatype Issue = Issue(
    number: int, title: string, state: string, labels: seq<string>,
    author: Option<string>, createdAt: string, body: string, comments: seq<Comment>)

  /** One flattened row; `kind` is the row's `"type"` entry. */
  datatype Row = Row(
    issueNumber: int, issueTitle: string, state: string, labels: string,
    author: string, createdAt: string, kind: string, text: string)

  /** Indexing `["author"]["login"]` on a post without a login raises `KeyError`. */
  const KeyError := "KeyError"

  /**
   * The row flattening of `fetch_issue_comments`: the issue's own post first, then
   * every comment in order, each row repeating the issue's number, title, state and
   * `;`-joined labels.
   */
  method FlattenIssue(issue: Issue) returns (r: Result<seq<Row>>)
    ensures r.Err? <==> issue.author.None? || exists k :: 0 <= k < |issue.comments| && issue.comments[k].author.None?
    ensures r.Err? ==> r.error == KeyError
    ensures r.Ok? ==> |r.value| == 1 + |issue.comments|
    ensures r.Ok? ==> forall k :: 0 <= k < |r.value| ==>
      var row := r.value[k];
      row.issueNumber == issue.number && row.issueTitle == issue.title && row.state == issue.state
      && row.labels == Join(issue.labels, ';')
    ensures r.Ok? ==>
      var row := r.value[0];
      row.kind == "issue" && row.author == issue.author.value && row.createdAt == issue.createdAt && row.text == issue.body
    ensures r.Ok? ==> forall k :: 0 <= k < |issue.comments| ==>
      var row, c := r.value[k + 1], issue.comments[k];
      row.kind == "comment" && c.author == Some(row.author) && row.createdAt == c.createdAt && row.text == c.body
  {
    if issue.author.None? {
      return Err(KeyError);
    }
    var labels := Join(issue.labels, ';');
    var rows := [Row(issue.number, issue.title, issue.state, labels, issue.author.value, issue.createdAt, "issue", issue.body)];
    for i := 0 to |issue.comments|
      invariant |rows| == 1 + i
      invariant forall k :: 0 <= k < |rows| ==>
        rows[k].issueNumber == issue.number && rows[k].issueTitle == issue.title && rows[k].state == issue.state
        && rows[k].labels == labels
      invariant rows[0].kind == "issue" && rows[0].author == issue.author.value
        && rows[0].createdAt == issue.createdAt && rows[0].text == issue.body
      invariant forall k :: 1 <= k < |rows| ==>
        rows[k].kind == "comment" && issue.comments[k - 1].author == Some(rows[k].author)
        && rows[k].createdAt == issue.comments[k - 1].createdAt && rows[k].text == issue.comments[k - 1].body
    {
      var c := issue.comments[i];
      if c.author.None? {
        return Err(KeyError);
      }
      rows := rows + [Row(issue.number, issue.title, issue.state, labels, c.author.value, c.createdAt, "comment", c.body)];
    }
    forall k | 0 <= k < |issue.comments|
      ensures issue.comments[k].author == Some(rows[k + 1].author)
    {
      assert 1 <= k + 1 < |rows|;
    }
    return Ok(rows);
  }

  /** Some row was written by `a`. */
  predicate WroteARow(rows: seq<Row>, a: string) {
    exists k :: 0 <= k < |rows| && rows[k].author == a
  }

  /**
   * `find_commenters`: every non-empty author of a row, once each. The source
   * returns `list(set)`, whose order Python leaves unspecified.
   */
  method FindCommenters(rows: seq<Row>) returns (authors: seq<string>)
    ensures Distinct(authors)
    ensures forall a :: a in authors <==> a != "" && WroteARow(rows, a)
  {
    authors := [];
    for i := 0 to |rows|
      invariant Distinct(authors)
      invariant forall a :: a in authors <==> a != "" && WroteARow(rows[..i], a)
    {
      var a := rows[i].author;
      assert rows[..i + 1] == rows[..i] + [rows[i]];
      if a != "" && a !in authors {
        authors := authors + [a];
      }
    }
    assert rows[..|rows|] == rows;
  }

  /** `u` took part in the issue: a non-empty login of its author or of a commenter. */
  predicate Participant(issue: Issue, u: string) {
    u != "" && (issue.author == Some(u) || exists k :: 0 <= k < |issue.comments| && issue.comments[k].author == Some(u))
  }

  /** The two routes agree: the authors in the flattened rows are exactly the issue's participants. */
  lemma RowAuthorsAreParticipants(issue: Issue, rows: seq<Row>, u: string)
    requires |rows| == 1 + |issue.comments|
    requires Some(rows[0].author) == issue.author
    requires forall k :: 0 <= k < |issue.comments| ==> issue.comments[k].author == Some(rows[k + 1].author)
    ensures u != "" && WroteARow(rows, u) <==> Participant(issue, u)
  {
    if u != "" && WroteARow(rows, u) {
      var k :| 0 <= k < |rows| && rows[k].author == u;
      if k > 0 {
        assert issue.comments[k - 1].author == Some(u);
      }
    }
    if Participant(issue, u) && issue.author != Some(u) {
      var k :| 0 <= k < |issue.comments| && issue.comments[k].author == Some(u);
      assert rows[k + 1].author == u;
    }
  }

  /** Strictly increasing under Python's string order, hence sorted and duplicate-free. */
  predicate Ascending(r: seq<string>) {
    forall i, j :: 0 <= i < j < |r| ==> LexLess(r[i], r[j])
  }

  lemma AscendingDistinct(r: seq<string>)
    requires Ascending(r)
    ensures Distinct(r)
  {
    forall i, j | 0 <= i < j < |r|
      ensures r[i] != r[j]
    {
      LexLessIrreflexive(r[i]);
    }
  }

  /** `x` put into its place in an ascending list. */
  function InsertSorted(x: string, r: seq<string>): (t: seq<string>)
    ensures |t| == |r| + 1
    ensures forall u :: u in t <==> u == x || u in r
  {
    if r == [] || LexLess(x, r[0]) then [x] + r
    else [r[0]] + InsertSorted(x, r[1..])
  }

  lemma {:induction false} InsertSortedAscending(x: string, r: seq<string>)
    requires Ascending(r) && x !in r
    ensures Ascending(InsertSorted(x, r))
  {
    var t := InsertSorted(x, r);
    if r == [] {
    } else if LexLess(x, r[0]) {
      forall j | 1 <= j < |t|
        ensures LexLess(t[0], t[j])
      {
        if j > 1 {
          LexLessTransitive(x, r[0], r[j - 1]);
        }
      }
    } else {
      LexLessTotal(x, r[0]);
      InsertSortedAscending(x, r[1..]);
      var t' := InsertSorted(x, r[1..]);
      forall j | 0 <= j < |t'|
        ensures LexLess(r[0], t'[j])
      {
        if t'[j] != x {
          assert t'[j] in r[1..];
          var i :| 0 <= i < |r[1..]| && r[1..][i] == t'[j];
          assert r[i + 1] == t'[j];
        }
      }
    }
  }

  /** Python's `sorted` over a set of strings. */
  method SortedList(s: set<string>) returns (r: seq<string>)
    ensures Ascending(r)
    ensures forall u :: u in r <==> u in s
  {
    r := [];
    var rest := s;
    while rest != {}
      invariant rest <= s
      invariant Ascending(r)
      invariant forall u :: u in r <==> u in s && u !in rest
      decreases |rest|
    {
      var x :| x in rest;
      InsertSortedAscending(x, r);
      r := InsertSorted(x, r);
      rest := rest - {x};
    }
  }

  /**
   * `extract_commenters_from_issue`: the issue author and every commenter with a
   * non-empty login, sorted and without repetitions.
   */
  method ExtractCommenters(issue: Issue) returns (names: seq<string>)
    ensures Ascending(names) && Distinct(names)
    ensures forall u :: u in names <==> Participant(issue, u)
  {
    var usernames: set<string> := {};
    if issue.author.Some? && issue.author.value != "" {
      usernames := usernames + {issue.author.value};
    }
    for i := 0 to |issue.comments|
      invariant forall u :: u in usernames <==>
        u != "" && (issue.author == Some(u) || exists k :: 0 <= k < i && issue.comments[k].author == Some(u))
    {
      var commenter := issue.comments[i].author;
      if commenter.Some? && commenter.value != "" {
        usernames := usernames + {commenter.value};
      }
    }
    names := SortedList(usernames);
    AscendingDistinct(names);
  }
}
