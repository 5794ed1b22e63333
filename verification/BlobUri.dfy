/** Blob storage files and their URI form. */
module BlobUri {
  import opened Options

  datatype Location = Azure | Http | Https

  datatype BlobFile = BlobFile(location: Location, container: string, path: string, filename: string)

  function Scheme(l: Location): string {
    match l
    case Azure => "azure"
    case Http => "http"
    case Https => "https"
  }

  function LocationOf(scheme: string): Option<Location> {
    if scheme == "azure" then Some(Azure)
    else if scheme == "http" then Some(Http)
    else if scheme == "https" then Some(Https)
    else None
  }

  predicate SlashFree(s: string) {
    forall k :: 0 <= k < |s| ==> s[k] != '/'
  }

  /** What the model's field patterns demand. */
  predicate Valid(f: BlobFile) {
    SlashFree(f.container) && SlashFree(f.filename)
  }

  function Tail(f: BlobFile): string {
    if f.path != "" then f.path + "/" + f.filename else f.filename
  }

  function ToUri(f: BlobFile): string {
    Scheme(f.location) + "://" + (f.container + "/" + Tail(f))
  }

  /** str.split("/"). */
  function Split(s: string): (parts: seq<string>)
    ensures |parts| >= 1
  {
    if s == "" then [""]
    else if s[0] == '/' then [""] + Split(s[1..])
    else var rest := Split(s[1..]); [[s[0]] + rest[0]] + rest[1..]
  }

  /** "/".join. */
  function Join(parts: seq<string>): string {
    if parts == [] then ""
    else if |parts| == 1 then parts[0]
    else parts[0] + "/" + Join(parts[1..])
  }

  /** Where "://" first occurs, or the length. */
  function SchemeEnd(u: string): (k: nat)
    ensures k <= |u| && (k < |u| ==> k + 3 <= |u| && u[k..k + 3] == "://")
  {
    if |u| >= 3 && u[..3] == "://" then 0
    else if u == "" then 0
    else
      var k := SchemeEnd(u[1..]);
      assert k < |u[1..]| ==> u[1..][k..k + 3] == u[k + 1..k + 4];
      1 + k
  }

  /** What follows the first "://"; nothing if there is none. */
  function Rest(u: string): string {
    if SchemeEnd(u) == |u| then "" else u[SchemeEnd(u) + 3..]
  }

  /** uri.partition("://"), then the parts of the rest; fewer than two parts or an unknown scheme is an error. */
  function FromUri(u: string): Option<BlobFile> {
    FromParts(LocationOf(u[..SchemeEnd(u)]), Split(Rest(u)))
  }

  function FromParts(location: Option<Location>, parts: seq<string>): Option<BlobFile> {
    if |parts| < 2 || location.None? then None
    else Some(BlobFile(location.value, parts[0], Join(parts[1..|parts| - 1]), parts[|parts| - 1]))
  }

  // ----- splitting and joining -----

  lemma JoinSlash(parts: seq<string>)
    requires parts != []
    ensures Join([""] + parts) == "/" + Join(parts)
  {
    assert ([""] + parts)[1..] == parts;
  }

  /** A character added to the first part is added to the whole. */
  lemma JoinPrepend(c: char, parts: seq<string>)
    requires parts != []
    ensures Join([[c] + parts[0]] + parts[1..]) == [c] + Join(parts)
  {
    var longer := [[c] + parts[0]] + parts[1..];
    assert longer[1..] == parts[1..];
    if |parts| > 1 {
      assert ([c] + parts[0]) + "/" + Join(parts[1..]) == [c] + (parts[0] + "/" + Join(parts[1..]));
    }
  }

  lemma {:induction false} JoinSplit(s: string)
    ensures Join(Split(s)) == s
  {
    if s != "" {
      JoinSplit(s[1..]);
      var rest := Split(s[1..]);
      if s[0] == '/' {
        JoinSlash(rest);
      } else {
        JoinPrepend(s[0], rest);
      }
      assert [s[0]] + s[1..] == s;
    }
  }

  lemma {:induction false} SplitParts(s: string)
    ensures forall k :: 0 <= k < |Split(s)| ==> SlashFree(Split(s)[k])
  {
    if s != "" {
      SplitParts(s[1..]);
    }
  }

  lemma {:induction false} SplitFirst(a: string, b: string)
    requires SlashFree(a)
    ensures Split(a + "/" + b) == [a] + Split(b)
  {
    var s := a + "/" + b;
    if a == "" {
      assert s[1..] == b;
    } else {
      SplitFirst(a[1..], b);
      assert s[1..] == a[1..] + "/" + b;
      assert [a[0]] + a[1..] == a;
    }
  }

  lemma {:induction false} SplitAlone(a: string)
    requires SlashFree(a)
    ensures Split(a) == [a]
  {
    if a != "" {
      SplitAlone(a[1..]);
      assert [a[0]] + a[1..] == a;
    }
  }

  lemma {:induction false} SplitLast(p: string, f: string)
    requires SlashFree(f)
    ensures Split(p + "/" + f) == Split(p) + [f]
  {
    var s := p + "/" + f;
    if p == "" {
      assert s[1..] == f;
      SplitAlone(f);
    } else {
      SplitLast(p[1..], f);
      assert s[1..] == p[1..] + "/" + f;
    }
  }

  lemma SchemeEndOf(l: Location, rest: string)
    ensures SchemeEnd(Scheme(l) + "://" + rest) == |Scheme(l)|
  {
    var u := Scheme(l) + "://" + rest;
    var n := |Scheme(l)|;
    assert u[n..n + 3] == "://";
    SchemeEndAt(u, n);
  }

  lemma {:induction false} SchemeEndAt(u: string, n: nat)
    requires n + 3 <= |u| && u[n..n + 3] == "://" && forall k :: 0 <= k < n ==> u[k] != ':'
    ensures SchemeEnd(u) == n
  {
    if n == 0 {
      assert u[..3] == u[0..3];
    } else {
      assert u[..3][0] == u[0];
      assert u[1..][n - 1..n + 2] == u[n..n + 3];
      SchemeEndAt(u[1..], n - 1);
    }
  }

  // ----- the round trips -----

  lemma ParsePrinted(l: Location, rest: string)
    ensures var u := Scheme(l) + "://" + rest;
            SchemeEnd(u) == |Scheme(l)| && u[..SchemeEnd(u)] == Scheme(l) && Rest(u) == rest
    ensures LocationOf(Scheme(l)) == Some(l)
  {
    SchemeEndOf(l, rest);
  }

  lemma PartsOfFile(f: BlobFile)
    requires Valid(f)
    ensures var parts := Split(f.container + "/" + Tail(f));
            |parts| >= 2 && parts[0] == f.container && parts[|parts| - 1] == f.filename
            && Join(parts[1..|parts| - 1]) == f.path
  {
    var parts := Split(f.container + "/" + Tail(f));
    SplitFirst(f.container, Tail(f));
    if f.path != "" {
      SplitLast(f.path, f.filename);
      assert parts == [f.container] + (Split(f.path) + [f.filename]);
      assert parts[1..|parts| - 1] == Split(f.path);
      JoinSplit(f.path);
    } else {
      SplitAlone(f.filename);
      assert parts == [f.container] + [f.filename];
      assert parts[1..|parts| - 1] == [];
    }
  }

  lemma FromPrinted(l: Location, rest: string)
    ensures FromUri(Scheme(l) + "://" + rest) == FromParts(Some(l), Split(rest))
  {
    ParsePrinted(l, rest);
  }

  /** Parsing what was printed gives the same file, for any path at all. */
  lemma PrintThenParse(f: BlobFile)
    requires Valid(f)
    ensures FromUri(ToUri(f)) == Some(f)
  {
    FromPrinted(f.location, f.container + "/" + Tail(f));
    PartsOfFile(f);
  }

  predicate EmptyMiddle(rest: string) {
    |Split(rest)| == 3 && Split(rest)[1] == ""
  }

  lemma UriShape(u: string)
    requires FromUri(u).Some?
    ensures u == Scheme(FromUri(u).value.location) + "://" + Rest(u) && |Split(Rest(u))| >= 2
  {
    assert Split("") == [""];
    SchemeThenRest(u);
  }

  lemma SchemeThenRest(u: string)
    ensures SchemeEnd(u) < |u| ==> u == u[..SchemeEnd(u)] + "://" + Rest(u)
  {
    if SchemeEnd(u) < |u| {
      CutAt(u, SchemeEnd(u), SchemeEnd(u) + 3);
    }
  }

  lemma CutAt(u: string, i: nat, j: nat)
    requires i <= j <= |u|
    ensures u == u[..i] + u[i..j] + u[j..]
  {
  }

  /** A known scheme, a container, and something after the slash that follows it. */
  predicate HasShape(u: string, l: Location, container: string, tail: string) {
    SlashFree(container) && u == Scheme(l) + "://" + (container + "/" + tail)
  }

  /** A string is accepted if and only if it has that shape; anything else is an error. */
  lemma ParsesExactly(u: string)
    ensures FromUri(u).Some? <==> exists l, container, tail :: HasShape(u, l, container, tail)
  {
    if FromUri(u).Some? {
      var parts := Split(Rest(u));
      UriShape(u);
      SplitParts(Rest(u));
      JoinSplit(Rest(u));
      assert HasShape(u, FromUri(u).value.location, parts[0], Join(parts[1..]));
    }
    forall l, container, tail | HasShape(u, l, container, tail)
      ensures FromUri(u).Some?
    {
      FromPrinted(l, container + "/" + tail);
      SplitFirst(container, tail);
    }
  }

  lemma SamePrefix(p: string, a: string, b: string)
    ensures p + a == p + b <==> a == b
  {
    assert (p + a)[|p|..] == a && (p + b)[|p|..] == b;
  }

  /** What is printed after the scheme is what was there, unless the middle was one empty segment. */
  lemma BodyExactly(rest: string, f: BlobFile)
    requires |Split(rest)| >= 2 && FromParts(Some(f.location), Split(rest)) == Some(f)
    ensures f.container + "/" + Tail(f) == rest <==> !EmptyMiddle(rest)
  {
    var parts := Split(rest);
    var middle := parts[1..|parts| - 1];
    JoinSplit(rest);
    JoinEnds(parts);
    JoinEmpty(middle);
    if EmptyMiddle(rest) {
      assert middle == [""];
      assert |rest| == |f.container + "/" + f.filename| + 1;
    } else {
      assert middle != [""];
    }
  }

  /**
    Printing what was parsed gives the same URI, except when a single empty segment stands between
    container and file.
   */
  lemma ParseThenPrintExactly(u: string)
    requires FromUri(u).Some?
    ensures Valid(FromUri(u).value)
    ensures ToUri(FromUri(u).value) == u <==> !EmptyMiddle(Rest(u))
  {
    var f, rest := FromUri(u).value, Rest(u);
    SplitParts(rest);
    UriShape(u);
    BodyExactly(rest, f);
    SamePrefix(Scheme(f.location) + "://", f.container + "/" + Tail(f), rest);
  }

  /** Joining is joining the first, the middle and the last part. */
  lemma JoinEnds(parts: seq<string>)
    requires |parts| >= 2
    ensures var middle := parts[1..|parts| - 1];
            Join(parts) == parts[0] + "/"
              + (if middle == [] then parts[|parts| - 1] else Join(middle) + "/" + parts[|parts| - 1])
  {
    var middle, last := parts[1..|parts| - 1], parts[|parts| - 1];
    if middle == [] {
      assert parts[1..] == [last];
    } else {
      assert parts[1..] == middle + [last];
      JoinLast(middle, last);
    }
  }

  lemma {:induction false} JoinLast(ps: seq<string>, last: string)
    requires ps != []
    ensures Join(ps + [last]) == Join(ps) + "/" + last
  {
    if |ps| == 1 {
      assert (ps + [last])[1..] == [last];
    } else {
      assert (ps + [last])[1..] == ps[1..] + [last];
      JoinLast(ps[1..], last);
      assert ps[0] + "/" + (Join(ps[1..]) + "/" + last) == (ps[0] + "/" + Join(ps[1..])) + "/" + last;
    }
  }

  lemma JoinEmpty(ps: seq<string>)
    ensures Join(ps) == "" <==> ps == [] || ps == [""]
  {
  }

  /** The family's shortest member. */
  lemma EmptySegmentIsLost()
    ensures FromUri("azure" + "://" + "c//f") == Some(BlobFile(Azure, "c", "", "f"))
    ensures ToUri(BlobFile(Azure, "c", "", "f")) != "azure" + "://" + "c//f"
  {
    ParsePrinted(Azure, "c//f");
    assert "c//f" == "c" + "/" + "/f" && "/f" == "" + "/" + "f";
    SplitFirst("c", "/f");
    SplitFirst("", "f");
    SplitAlone("f");
    var parts := ["c"] + ([""] + ["f"]);
    assert Split("c//f") == parts && parts[1..2] == [""];
  }
}
