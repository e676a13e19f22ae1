/** `parseUrlMr` (main.go:67-86): reads the project path and the merge-request
    number out of a chat message holding a GitLab merge-request link. The GitLab
    domain, which the Go code reads from the environment, is a parameter here. */
module MergeRequestUrl {
  import opened Wrappers
  import opened GoStrings
  import opened GoStrconv

  /** The literal that separates the project part of a link from the number. */
  const Marker: string := "/-/merge_requests/"

  /** `fmt.Sprintf("https://%v/", domain)`: what stands before the project path,
      the domain between the scheme and a closing `/`. */
  function DomainPrefix(domain: string): (r: string)
    ensures |r| == |domain| + 9 && r[..8] == "https://" && r[8..|r| - 1] == domain && r[|r| - 1] == '/'
  {
    "https://" + domain + "/"
  }

  datatype ParseError =
    | NotMergeRequestLink   // main.go:73-75, the marker is missing
    | NotNumericId          // main.go:80-83, `strconv.Atoi` refused the id text
    | MissingDomainPrefix   // used only by ParseUrlMrChecked

  /** What a call of `parseUrlMr` ends in: its three return values (`err` is
      `None` for a nil error), or the index-out-of-range panic of main.go:78. */
  datatype ParseOutcome =
    | Returned(projectID: string, mrIID: int, err: Option<ParseError>)
    | Panicked

  /** The link parser as written. Every error return carries ("", -1), a
      returned project path never holds `https://{domain}/`, and the
      marker-missing error is returned exactly when the marker is absent. */
  function ParseUrlMr(urlArg: string, domain: string): (r: ParseOutcome)
    ensures r.Returned? && r.err.Some? ==> r.projectID == "" && r.mrIID == -1
    ensures r.Returned? && r.err.None? ==> MinInt <= r.mrIID <= MaxInt
    ensures r.Returned? && r.err.None? ==> !Occurs(r.projectID, DomainPrefix(domain))
    ensures r == Returned("", -1, Some(NotMergeRequestLink)) <==> !Occurs(urlArg, Marker)
  {
    SplitSeveral(urlArg, Marker);
    var urlMr := Split(urlArg, Marker);
    if |urlMr| < 2 then Returned("", -1, Some(NotMergeRequestLink))
    else FromPieces(urlMr[0], Split(urlMr[1], "/")[0], domain)
  }

  /** main.go:78-85, once the text before the marker (`head`) and the id text
      are known: take the path after `https://{domain}/` (panicking when that
      prefix is missing), then convert the id. */
  function FromPieces(head: string, mrId: string, domain: string): (r: ParseOutcome)
    ensures r.Returned? && r.err.Some? ==> r == Returned("", -1, Some(NotNumericId))
    ensures r.Returned? && r.err.None? ==> MinInt <= r.mrIID <= MaxInt
    ensures r.Returned? && r.err.None? ==> !Occurs(r.projectID, DomainPrefix(domain))
  {
    var pathParts := Split(head, DomainPrefix(domain));
    if |pathParts| < 2 then Panicked
    else match Atoi(mrId)
      case None => Returned("", -1, Some(NotNumericId))
      case Some(n) =>
        SplitPiecesFree(head, DomainPrefix(domain), 1);
        Returned(pathParts[1], n, None)
  }

  /** The text before the first marker. */
  function LinkHead(s: string): string
    requires Occurs(s, Marker)
  {
    IndexFirst(s, Marker);
    s[..Index(s, Marker)]
  }

  /** The text after the first marker, up to (not including) the first `/`. */
  function IdText(s: string): string
    requires Occurs(s, Marker)
  {
    IndexFirst(s, Marker);
    TakeUntil(s[Index(s, Marker) + |Marker|..], '/')
  }

  /** The two pieces `parseUrlMr` reads from a link: the first piece of the split
      on the marker is the text before the first marker, and the id text is what
      follows that marker up to the first `/`, even when a second marker follows. */
  lemma LinkPieces(s: string, domain: string)
    requires Occurs(s, Marker)
    ensures ParseUrlMr(s, domain) == FromPieces(LinkHead(s), IdText(s), domain)
  {
    IndexFirst(s, Marker);
    var m := Index(s, Marker);
    var after := s[m + |Marker|..];
    assert Split(s, Marker) == [s[..m]] + Split(after, Marker);
    FirstPieceId(after);
  }

  /** Splitting at the next marker before looking for the first `/` changes
      nothing, because the marker itself starts with `/`. */
  lemma FirstPieceId(t: string)
    ensures Split(Split(t, Marker)[0], "/")[0] == TakeUntil(t, '/')
  {
    IndexFirst(t, Marker);
    var m := Index(t, Marker);
    var piece := Split(t, Marker)[0];
    SplitCharFirst(piece, '/');
    if m >= 0 {
      assert t[m..m + |Marker|] == Marker;
      assert Marker[0] == '/' && t[m..m + |Marker|][0] == t[m];
      assert t[m] == '/';
      assert piece == t[..m];
      TakeUntilCut(t, '/', m);
    } else {
      assert piece == t;
    }
  }

  /** main.go:78: the parser panics exactly when the marker is present but the
      text before it lacks `https://{domain}/`. */
  lemma PanicsExactly(s: string, domain: string)
    ensures ParseUrlMr(s, domain).Panicked?
        <==> Occurs(s, Marker) && !Occurs(LinkHead(s), DomainPrefix(domain))
  {
    SplitSeveral(s, Marker);
    if Occurs(s, Marker) {
      LinkPieces(s, domain);
      SplitSeveral(LinkHead(s), DomainPrefix(domain));
    }
  }

  /** main.go:77 and 80-83: once the link has its marker and its domain prefix,
      the id text alone decides between the numeric-id error and success, and on
      success the number is the id text's value. */
  lemma IdTextDecides(s: string, domain: string)
    requires Occurs(s, Marker) && Occurs(LinkHead(s), DomainPrefix(domain))
    ensures Atoi(IdText(s)).None? <==> ParseUrlMr(s, domain) == Returned("", -1, Some(NotNumericId))
    ensures Atoi(IdText(s)).Some? ==>
              ParseUrlMr(s, domain).Returned? && ParseUrlMr(s, domain).err.None? &&
              ParseUrlMr(s, domain).mrIID == Atoi(IdText(s)).value
  {
    LinkPieces(s, domain);
    SplitSeveral(LinkHead(s), DomainPrefix(domain));
  }

  /** Cutting at the first `c` of `x + y`, where `y` is empty or starts with `c`. */
  lemma {:induction false} TakeUntilExact(x: string, c: char, y: string)
    requires c !in x
    requires y == [] || y[0] == c
    ensures TakeUntil(x + y, c) == x
  {
    if x != [] {
      assert (x + y)[1..] == x[1..] + y;
      TakeUntilExact(x[1..], c, y);
    }
  }

  /** Whatever follows the `/` that ends the id (`/diffs`, `/commits`, a
      fragment) never affects the outcome. */
  lemma TrailingTextIgnored(head: string, id: string, rest1: string, rest2: string, domain: string)
    requires NoEarlierOccurrence(head, Marker)
    requires '/' !in id
    ensures ParseUrlMr(head + Marker + id + "/" + rest1, domain)
         == ParseUrlMr(head + Marker + id + "/" + rest2, domain)
  {
    TrailingPieces(head, id, rest1, domain);
    TrailingPieces(head, id, rest2, domain);
  }

  /** The pieces of `head + Marker + id + "/" + rest`: `head` and `id`. */
  lemma TrailingPieces(head: string, id: string, rest: string, domain: string)
    requires NoEarlierOccurrence(head, Marker)
    requires '/' !in id
    ensures ParseUrlMr(head + Marker + id + "/" + rest, domain) == FromPieces(head, id, domain)
  {
    var tail := id + ("/" + rest);
    assert head + Marker + id + "/" + rest == head + Marker + tail;
    SplitAfter(head, Marker, tail);
    SplitSeveral(tail, Marker);
    FirstPieceId(tail);
    TakeUntilExact(id, '/', "/" + rest);
  }

  /** Round trip: a link built from a project path and a 64-bit number, with
      anything or nothing after a closing `/`, parses back to that path and
      number. Text before `https://{domain}/` is discarded. The conditions say
      that the first `https://{domain}/` is the one after `junk`, that the path
      holds no second one, and that the first marker is the one after the path. */
  lemma ParseRoundTrip(junk: string, domain: string, path: string, n: int, suffix: string)
    requires NoEarlierOccurrence(junk, DomainPrefix(domain))
    requires !Occurs(path, DomainPrefix(domain))
    requires NoEarlierOccurrence(junk + DomainPrefix(domain) + path, Marker)
    requires MinInt <= n <= MaxInt
    requires suffix == [] || suffix[0] == '/'
    ensures ParseUrlMr(junk + DomainPrefix(domain) + path + Marker + Itoa(n) + suffix, domain)
         == Returned(path, n, None)
  {
    var prefix := DomainPrefix(domain);
    var x := junk + prefix + path;
    var tail := Itoa(n) + suffix;
    assert junk + prefix + path + Marker + Itoa(n) + suffix == x + Marker + tail;
    SplitAfter(x, Marker, tail);
    SplitSeveral(tail, Marker);
    FirstPieceId(tail);
    ItoaNoSlash(n);
    TakeUntilExact(Itoa(n), '/', suffix);
    AtoiItoa(n);
    SplitAfter(junk, prefix, path);
    SplitFree(path, prefix);
  }

  /** The end-to-end scenario: the link
      `https://gitlab.example.com/group/proj/-/merge_requests/42/diffs`,
      spelled out as its parts, parses to ("group/proj", 42). */
  lemma ParseExample()
    ensures ParseUrlMr(DomainPrefix("gitlab.example.com") + "group/proj" + Marker + "42" + "/diffs",
                       "gitlab.example.com")
         == Returned("group/proj", 42, None)
  {
    var prefix := DomainPrefix("gitlab.example.com");
    ExampleConditions(prefix);
    ParseRoundTrip("", "gitlab.example.com", "group/proj", 42, "/diffs");
    assert "" + prefix == prefix;
  }

  /** The conditions of `ParseRoundTrip` for the end-to-end scenario. */
  lemma ExampleConditions(prefix: string)
    requires prefix == DomainPrefix("gitlab.example.com")
    ensures NoEarlierOccurrence("", prefix)
    ensures !Occurs("group/proj", prefix)
    ensures NoEarlierOccurrence("" + prefix + "group/proj", Marker)
    ensures Itoa(42) == "42"
  {
    ShortFree(prefix[..|prefix| - 1], prefix);
    assert "" + prefix[..|prefix| - 1] == prefix[..|prefix| - 1];
    ShortFree("group/proj", prefix);
    var head := "" + prefix + "group/proj";
    assert Marker[8] == '_' && Marker[..8] == "/-/merge";
    assert '_' !in "https://" && '_' !in "gitlab.example.com" && '_' !in "/" && '_' !in "group/proj";
    MarkCharNoEarlier(head, Marker, 8);
  }

  /** The project path may be empty: `https://d//-/merge_requests/1` under the
      domain `d` is accepted with the path "" and no error. */
  lemma EmptyPathAccepted()
    ensures ParseUrlMr(DomainPrefix("d") + Marker + "1", "d") == Returned("", 1, None)
  {
    var prefix := DomainPrefix("d");
    EmptyPathConditions(prefix);
    ParseRoundTrip("", "d", "", 1, "");
    var link := prefix + Marker + "1";
    assert "" + prefix + "" == prefix;
    assert prefix + Marker + Itoa(1) == link;
    assert link + "" == link;
  }

  /** The conditions of `ParseRoundTrip` for an empty path under the domain `d`. */
  lemma EmptyPathConditions(prefix: string)
    requires prefix == DomainPrefix("d")
    ensures NoEarlierOccurrence("", prefix)
    ensures !Occurs("", prefix)
    ensures NoEarlierOccurrence("" + prefix + "", Marker)
    ensures Itoa(1) == "1"
  {
    ShortFree(prefix[..|prefix| - 1], prefix);
    assert "" + prefix[..|prefix| - 1] == prefix[..|prefix| - 1];
    ShortFree("", prefix);
    assert Marker[8] == '_' && Marker[..8] == "/-/merge";
    assert '_' !in "https://" && '_' !in "d" && '_' !in "/";
    MarkCharNoEarlier("" + prefix + "", Marker, 8);
  }

  /** A message that is not a link at all is refused, with ("", -1). */
  lemma NotALinkExample(domain: string)
    ensures ParseUrlMr("not a url", domain) == Returned("", -1, Some(NotMergeRequestLink))
  {
    ShortFree("not a url", Marker);
  }

  /** A link to a merge request on another host: the marker is there, the
      configured domain is not, and the parser panics instead of returning an
      error. */
  lemma ForeignHostPanics()
    ensures ParseUrlMr(DomainPrefix("github.com") + "a/b" + Marker + "1", "gitlab.example.com").Panicked?
  {
    var head := DomainPrefix("github.com") + "a/b";
    var s := head + Marker + "1";
    assert Marker[8] == '_' && Marker[..8] == "/-/merge";
    assert '_' !in head;
    MarkCharNoEarlier(head, Marker, 8);
    IndexAfter(head, Marker, "1");
    IndexFirst(s, Marker);
    assert LinkHead(s) == head;
    ShortFree(head, DomainPrefix("gitlab.example.com"));
    PanicsExactly(s, "gitlab.example.com");
  }

  /** The parser with the length check that main.go:78 lacks: a link whose text
      before the marker has no `https://{domain}/` is refused with an error.
      It never panics, and it agrees with `ParseUrlMr` wherever that returns. */
  function ParseUrlMrChecked(urlArg: string, domain: string): (r: ParseOutcome)
    ensures r.Returned?
    ensures r.err.Some? ==> r.projectID == "" && r.mrIID == -1
    ensures r.err == Some(MissingDomainPrefix) <==> ParseUrlMr(urlArg, domain).Panicked?
    ensures ParseUrlMr(urlArg, domain).Returned? ==> r == ParseUrlMr(urlArg, domain)
  {
    var urlMr := Split(urlArg, Marker);
    if |urlMr| < 2 then Returned("", -1, Some(NotMergeRequestLink))
    else if |Split(urlMr[0], DomainPrefix(domain))| < 2 then Returned("", -1, Some(MissingDomainPrefix))
    else FromPieces(urlMr[0], Split(urlMr[1], "/")[0], domain)
  }
}
