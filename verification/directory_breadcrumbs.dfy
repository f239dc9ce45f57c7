/**
 * The breadcrumb bar above a directory listing: the path is cut into its
 * non-empty `/`-separated parts, shown after a root segment "Files", and
 * every segment but the last links to the directory it names.
 */
module DirectoryBreadcrumbs {
  import opened Strings

  const RootLabel: string := "Files"

  /** `path.split('/').filter(part => part !== '')`. */
  function NonEmptyParts(path: string): (parts: seq<string>)
    ensures forall i :: 0 <= i < |parts| ==> parts[i] != "" && '/' !in parts[i]
  {
    var all := Split(path, '/');
    var parts := NonEmpty(all);
    assert forall i :: 0 <= i < |parts| ==> parts[i] in all;
    parts
  }

  /** The labels of the bar: the root segment, then the path's parts. */
  function Segments(path: string): (segments: seq<string>)
    ensures |segments| == |NonEmptyParts(path)| + 1
  {
    [RootLabel] + NonEmptyParts(path)
  }

  /**
   * The path a click on segment `segmentIndex` navigates to:
   * `segments.slice(1, segmentIndex + 1).join('/')`, where `slice` stops at
   * the end of the array.
   */
  function Destination(path: string, segmentIndex: nat): (dest: string)
    ensures Normalised(dest)
    ensures dest == "" <==> segmentIndex == 0 || NonEmptyParts(path) == []
  {
    var segments := Segments(path);
    var end := if segmentIndex + 1 < |segments| then segmentIndex + 1 else |segments|;
    var prefix := segments[1..end];
    assert forall k :: 0 <= k < |prefix| ==> prefix[k] == NonEmptyParts(path)[k];
    JoinNormalised(prefix);
    Join(prefix, '/')
  }

  /** A path without a leading or trailing `/` and without `//`. */
  predicate Normalised(p: string) {
    && (|p| > 0 ==> p[0] != '/' && p[|p| - 1] != '/')
    && (forall k :: 0 <= k < |p| - 1 ==> p[k] != '/' || p[k + 1] != '/')
  }

  /** A slash at either end, or a run of slashes, adds no parts. */
  lemma {:induction false} PartsAroundSlash(a: string, b: string)
    ensures NonEmptyParts(a + "/" + b) == NonEmptyParts(a) + NonEmptyParts(b)
  {
    SplitAround(a, b, '/');
    assert a + "/" + b == a + ['/'] + b;
    NonEmptyAppend(Split(a, '/'), Split(b, '/'));
  }

  /** The root, written either way, shows only the root segment. */
  lemma RootHasNoParts()
    ensures Segments("") == [RootLabel]
    ensures Segments("/") == [RootLabel]
  {
    PartsAroundSlash("", "");
  }

  /** The empty path has no parts. */
  lemma EmptyHasNoParts()
    ensures NonEmptyParts("") == []
  {
    assert Split("", '/') == [""];
  }

  /** A leading slash produces no segment. */
  lemma LeadingSlashIgnored(p: string)
    ensures Segments("/" + p) == Segments(p)
  {
    PartsAroundSlash("", p);
    assert "" + "/" + p == "/" + p;
    EmptyHasNoParts();
  }

  /** A trailing slash produces no segment. */
  lemma TrailingSlashIgnored(p: string)
    ensures Segments(p + "/") == Segments(p)
  {
    PartsAroundSlash(p, "");
    assert p + "/" + "" == p + "/";
    EmptyHasNoParts();
  }

  /** A doubled slash produces the same segments as a single one. */
  lemma DoubledSlashIgnored(p: string, q: string)
    ensures Segments(p + "//" + q) == Segments(p + "/" + q)
  {
    var a, b := NonEmptyParts(p), NonEmptyParts(q);
    assert NonEmptyParts("/" + q) == b by {
      PartsAroundSlash("", q);
      assert "" + "/" + q == "/" + q;
      EmptyHasNoParts();
    }
    assert NonEmptyParts(p + "//" + q) == a + b by {
      PartsAroundSlash(p, "/" + q);
      assert p + "/" + ("/" + q) == p + "//" + q;
    }
    PartsAroundSlash(p, q);
  }

  /** Entering directory `name` from `path` adds exactly one segment, `name`. */
  lemma EnteringAddsSegment(path: string, name: string)
    requires name != "" && '/' !in name
    ensures NonEmptyParts(path + "/" + name) == NonEmptyParts(path) + [name]
    ensures Segments(path + "/" + name) == Segments(path) + [name]
  {
    PartsAroundSlash(path, name);
    SplitWithoutSeparator(name, '/');
  }

  /** Joining non-empty, slash-free parts gives a normalised path. */
  lemma {:induction false} JoinNormalised(parts: seq<string>)
    requires forall i :: 0 <= i < |parts| ==> parts[i] != "" && '/' !in parts[i]
    ensures Normalised(Join(parts, '/'))
    ensures |parts| > 0 ==> |Join(parts, '/')| > 0
    decreases |parts|
  {
    if |parts| > 1 {
      var head, rest := parts[0], Join(parts[1..], '/');
      JoinNormalised(parts[1..]);
      var d := Join(parts, '/');
      assert d == head + "/" + rest;
      assert head[0] != '/' && head[|head| - 1] != '/' by {
        assert head[0] in head && head[|head| - 1] in head;
      }
      forall k | 0 <= k < |d| - 1 ensures d[k] != '/' || d[k + 1] != '/' {
        if k < |head| {
          assert d[k] == head[k] && head[k] in head;
        } else if k > |head| {
          assert d[k] == rest[k - |head| - 1] && d[k + 1] == rest[k - |head|];
        }
      }
    } else if |parts| == 1 {
      var d := parts[0];
      assert forall k :: 0 <= k < |d| ==> d[k] in d;
    }
  }

  /** Clicking the root segment navigates to the root, `""`. */
  lemma RootSegmentNavigatesToRoot(path: string)
    ensures Destination(path, 0) == ""
  {
  }

  /** Joining non-empty, slash-free parts and cutting the result again recovers the parts. */
  lemma PartsOfJoin(parts: seq<string>)
    requires forall i :: 0 <= i < |parts| ==> parts[i] != "" && '/' !in parts[i]
    ensures NonEmptyParts(Join(parts, '/')) == parts
  {
    if |parts| == 0 {
      EmptyHasNoParts();
    } else {
      SplitJoin(parts, '/');
      NonEmptyKeepsNonEmpty(parts);
    }
  }

  /** Segment `i`'s destination joins the first `i` parts, or all of them past the end. */
  lemma DestinationJoinsPrefix(path: string, i: nat)
    ensures var parts := NonEmptyParts(path);
      Destination(path, i) == Join(parts[..if i < |parts| then i else |parts|], '/')
  {
    var parts := NonEmptyParts(path);
    var n := if i < |parts| then i else |parts|;
    assert Segments(path)[1..n + 1] == parts[..n];
  }

  /**
   * Segment `i`'s destination is the first `i` parts joined by `/`; it is
   * normalised, and splitting it again gives back exactly those parts.
   */
  lemma DestinationIsPrefix(path: string, i: nat)
    ensures var parts := NonEmptyParts(path);
      var n := if i < |parts| then i else |parts|;
      && Destination(path, i) == Join(parts[..n], '/')
      && Normalised(Destination(path, i))
      && NonEmptyParts(Destination(path, i)) == parts[..n]
  {
    var parts := NonEmptyParts(path);
    var n := if i < |parts| then i else |parts|;
    var prefix := parts[..n];
    DestinationJoinsPrefix(path, i);
    assert forall k :: 0 <= k < |prefix| ==> prefix[k] == parts[k];
    JoinNormalised(prefix);
    PartsOfJoin(prefix);
  }

  /** One link of the bar: its text and where it leads. */
  datatype Link = Link(text: string, destination: string)

  /** The rendered bar: links for all segments but the last, which is shown as the current location. */
  datatype Bar = Bar(links: seq<Link>, current: string)

  function Render(path: string): (bar: Bar)
    ensures |bar.links| == |NonEmptyParts(path)|
    ensures forall i :: 0 <= i < |bar.links| ==> bar.links[i] == Link(Segments(path)[i], Destination(path, i))
    ensures bar.current == Segments(path)[|Segments(path)| - 1]
  {
    var segments := Segments(path);
    Bar(seq(|segments| - 1, i requires 0 <= i < |segments| - 1 => Link(segments[i], Destination(path, i))),
        segments[|segments| - 1])
  }

  /**
   * Following link `i` leads to a location whose bar shows exactly the first
   * `i + 1` segments, with segment `i` as the current location.
   */
  lemma FollowingLinkTruncates(path: string, i: nat)
    requires i < |Render(path).links|
    ensures Render(path).links[i].text == Segments(path)[i]
    ensures Segments(Render(path).links[i].destination) == Segments(path)[..i + 1]
    ensures Render(Render(path).links[i].destination).current == Segments(path)[i]
  {
    DestinationIsPrefix(path, i);
    var parts := NonEmptyParts(path);
    assert Segments(path)[..i + 1] == [RootLabel] + parts[..i];
  }

  /** In a child directory's bar, the last link leads back to the parent, up to redundant slashes. */
  lemma LastLinkLeadsToParent(parentPath: string, name: string)
    requires name != "" && '/' !in name
    ensures var links := Render(parentPath + "/" + name).links;
      |links| > 0 && NonEmptyParts(links[|links| - 1].destination) == NonEmptyParts(parentPath)
  {
    var path := parentPath + "/" + name;
    var parent := NonEmptyParts(parentPath);
    var n := |parent|;
    EnteringAddsSegment(parentPath, name);
    var parts := NonEmptyParts(path);
    assert parts == parent + [name];
    DestinationJoinsPrefix(path, n);
    assert parts[..n] == parent;
    PartsOfJoin(parent);
    var links := Render(path).links;
    assert links[n].destination == Destination(path, n);
  }

  /** The first link below the root of "/a/b" leads to "a", without a leading slash. */
  lemma TwoLevelDestination(a: string, b: string)
    requires a != "" && '/' !in a && b != "" && '/' !in b
    ensures Destination("/" + a + "/" + b, 1) == a
  {
    var p := "/" + a + "/" + b;
    assert p == "" + "/" + (a + "/" + b);
    PartsAroundSlash("", a + "/" + b);
    PartsAroundSlash(a, b);
    EmptyHasNoParts();
    SplitWithoutSeparator(a, '/');
    SplitWithoutSeparator(b, '/');
    assert NonEmptyParts(a) == [a] && NonEmptyParts(b) == [b];
    assert NonEmptyParts(p) == [a, b];
    DestinationIsPrefix(p, 1);
    assert [a, b][..1] == [a];
  }
}
