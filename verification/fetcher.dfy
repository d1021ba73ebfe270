/** `toBatraceUrl` (src/api/fetcher.js:13-28): rewrites a barmory API path
    into the equivalent URL of the direct match-data service by trying three
    regular expressions in turn. Each expression is modelled by a literal
    prefix, a capture of one character class, and what must follow it; the
    response transform, a closure in the source, is a tag here. */
module Fetcher {
  import opened Optional
  import opened Config

  /** `\d` or `[^/]`. */
  datatype CharClass = Digit | NotSlash

  predicate InClass(c: char, k: CharClass)
  {
    match k
    case Digit => '0' <= c <= '9'
    case NotSlash => c != '/'
  }

  /** `lit` occurs in `u` at position `p`. */
  predicate HasAt(u: string, lit: string, p: int)
  {
    0 <= p && p + |lit| <= |u| && u[p..p + |lit|] == lit
  }

  /** The length of the longest run of class-`k` characters of `u` starting
      at `i`: what a greedy `\d+` or `[^/]+` consumes there. */
  function RunLength(u: string, i: nat, k: CharClass): (n: nat)
    requires i <= |u|
    ensures i + n <= |u|
    ensures forall j :: i <= j < i + n ==> InClass(u[j], k)
    ensures i + n == |u| || !InClass(u[i + n], k)
    decreases |u| - i
  {
    if i == |u| || !InClass(u[i], k) then 0 else 1 + RunLength(u, i + 1, k)
  }

  /** The shape of one regular expression: literal text, a capture of one
      or more characters of a class, literal text, and whether it is
      anchored at the end of the input. */
  datatype Shape = Shape(lead: string, kind: CharClass, trail: string, anchored: bool)

  /** The trail cannot be read as part of the capture: a greedy run stops
      exactly where the trail starts. */
  predicate Separated(sh: Shape)
  {
    || (|sh.trail| > 0 && !InClass(sh.trail[0], sh.kind))
    || (sh.trail == [] && !sh.anchored)
  }

  /** The regular expression `sh` matches `u` from position `p` with `c` as
      its capture: the lead, a non-empty run of the class, the trail, and
      nothing after when anchored. */
  predicate Accepts(u: string, sh: Shape, p: int, c: string)
  {
    && |c| > 0
    && (forall j :: 0 <= j < |c| ==> InClass(c[j], sh.kind))
    && HasAt(u, sh.lead + c + sh.trail, p)
    && (sh.anchored ==> p + |sh.lead| + |c| + |sh.trail| == |u|)
  }

  /** The greedy matcher at `p`: the lead, then the longest run of the
      class, which must be non-empty and followed by the trail. */
  predicate MatchesAt(u: string, sh: Shape, p: int)
  {
    && HasAt(u, sh.lead, p)
    && var i := p + |sh.lead|;
       var n := RunLength(u, i, sh.kind);
       && n > 0
       && HasAt(u, sh.trail, i + n)
       && (sh.anchored ==> i + n + |sh.trail| == |u|)
  }

  /** The text the greedy matcher captures at `p`. */
  function Capture(u: string, sh: Shape, p: int): (c: string)
    requires MatchesAt(u, sh, p)
    ensures |c| > 0
  {
    var i := p + |sh.lead|;
    u[i..i + RunLength(u, i, sh.kind)]
  }

  /** The first position at or after `p` where `sh` matches. */
  function Leftmost(u: string, sh: Shape, p: nat): (r: Option<nat>)
    requires p <= |u|
    ensures r.Some? ==> p <= r.value && MatchesAt(u, sh, r.value)
    ensures r.Some? ==> forall q :: p <= q < r.value ==> !MatchesAt(u, sh, q)
    ensures r.None? ==> forall q :: p <= q ==> !MatchesAt(u, sh, q)
    decreases |u| - p
  {
    if MatchesAt(u, sh, p) then Some(p)
    else if p == |u| then None
    else Leftmost(u, sh, p + 1)
  }

  /** `u.match(re)?.[1]`: the capture of the leftmost match, if any. */
  function Find(u: string, sh: Shape): Option<string>
  {
    match Leftmost(u, sh, 0)
    case None => None
    case Some(p) => Some(Capture(u, sh, p))
  }

  /** Any piece of an occurrence of `w` is the same piece of `u`. */
  lemma PieceOf(u: string, w: string, p: int, x: int, y: int)
    requires HasAt(u, w, p) && 0 <= x <= y <= |w|
    ensures u[p + x..p + y] == w[x..y]
  {
    forall j | 0 <= j < y - x ensures u[p + x..p + y][j] == w[x..y][j] {
      assert u[p + x + j] == u[p..p + |w|][x + j];
    }
  }

  lemma ConcatParts(a: string, b: string, d: string)
    ensures var w := a + b + d;
            w[..|a|] == a && w[|a|..|a| + |b|] == b && w[|a| + |b|..] == d
  {
  }

  /** Three adjacent occurrences make one occurrence of their join. */
  lemma Joined(u: string, p: int, a: string, b: string, d: string)
    requires HasAt(u, a, p) && HasAt(u, b, p + |a|) && HasAt(u, d, p + |a| + |b|)
    ensures HasAt(u, a + b + d, p)
  {
    var w := a + b + d;
    forall j | 0 <= j < |w| ensures u[p..p + |w|][j] == w[j] {
      if j < |a| {
        assert u[p + j] == u[p..p + |a|][j];
      } else if j < |a| + |b| {
        assert u[p + j] == u[p + |a|..p + |a| + |b|][j - |a|];
      } else {
        assert u[p + j] == u[p + |a| + |b|..p + |a| + |b| + |d|][j - |a| - |b|];
      }
    }
  }

  /** An accepted capture is the text right after the lead, made of the
      class, and followed by the trail. */
  lemma AcceptedText(u: string, sh: Shape, p: int, c: string)
    requires Accepts(u, sh, p, c)
    ensures var i := p + |sh.lead|;
            && HasAt(u, sh.lead, p)
            && HasAt(u, c, i)
            && HasAt(u, sh.trail, i + |c|)
            && forall j :: i <= j < i + |c| ==> InClass(u[j], sh.kind)
  {
    var a, d := sh.lead, sh.trail;
    var i := p + |a|;
    var w := a + c + d;
    ConcatParts(a, c, d);
    PieceOf(u, w, p, 0, |a|);
    PieceOf(u, w, p, |a|, |a| + |c|);
    PieceOf(u, w, p, |a| + |c|, |w|);
    forall j | i <= j < i + |c| ensures InClass(u[j], sh.kind) {
      assert u[j] == u[i..i + |c|][j - i];
    }
  }

  /** What the greedy matcher captures is accepted. */
  lemma CaptureAccepted(u: string, sh: Shape, p: int)
    requires MatchesAt(u, sh, p)
    ensures Accepts(u, sh, p, Capture(u, sh, p))
  {
    var i := p + |sh.lead|;
    var c := Capture(u, sh, p);
    Joined(u, p, sh.lead, c, sh.trail);
    forall j | 0 <= j < |c| ensures InClass(c[j], sh.kind) {
      assert c[j] == u[i + j];
    }
  }

  /** Whenever a capture is accepted, the greedy matcher matches too: its
      run reaches at least as far, and a separated trail stops it exactly
      at the end of the accepted capture. */
  lemma AcceptedMatches(u: string, sh: Shape, p: int, c: string)
    requires Separated(sh) && Accepts(u, sh, p, c)
    ensures MatchesAt(u, sh, p)
    ensures RunLength(u, p + |sh.lead|, sh.kind) >= |c|
    ensures sh.trail != [] ==> RunLength(u, p + |sh.lead|, sh.kind) == |c|
  {
    AcceptedText(u, sh, p, c);
    var i := p + |sh.lead|;
    var n := RunLength(u, i, sh.kind);
    assert n >= |c|;
    if sh.trail != [] {
      assert u[i + |c|] == u[i + |c|..i + |c| + |sh.trail|][0];
      assert n == |c|;
    }
  }

  /** The greedy matcher agrees with the regular expression: it matches at
      `p` exactly when some capture is accepted there, and what it captures
      is the longest accepted capture. */
  lemma MatchesAtIffAccepts(u: string, sh: Shape, p: int)
    requires Separated(sh)
    ensures MatchesAt(u, sh, p) <==> exists c :: Accepts(u, sh, p, c)
    ensures MatchesAt(u, sh, p) ==>
              && Accepts(u, sh, p, Capture(u, sh, p))
              && forall c :: Accepts(u, sh, p, c) ==> |c| <= |Capture(u, sh, p)|
  {
    if MatchesAt(u, sh, p) {
      CaptureAccepted(u, sh, p);
      forall c | Accepts(u, sh, p, c) ensures |c| <= |Capture(u, sh, p)| {
        AcceptedMatches(u, sh, p, c);
      }
    }
    if exists c :: Accepts(u, sh, p, c) {
      var c :| Accepts(u, sh, p, c);
      AcceptedMatches(u, sh, p, c);
    }
  }

  /** Two accepted captures at one position of the same length are equal. */
  lemma AcceptedUnique(u: string, sh: Shape, p: int, c: string, d: string)
    requires Accepts(u, sh, p, c) && Accepts(u, sh, p, d) && |c| == |d|
    ensures c == d
  {
    AcceptedText(u, sh, p, c);
    AcceptedText(u, sh, p, d);
  }

  /** Where `sh` matches at all, it matches at its leftmost position with
      `Find`'s capture. */
  lemma FindSome(u: string, sh: Shape, p: int, c: string)
    requires Separated(sh) && Accepts(u, sh, p, c)
    ensures Find(u, sh).Some?
  {
    MatchesAtIffAccepts(u, sh, p);
  }

  /** `Find` returns the capture of the leftmost position where the
      expression matches, the longest one accepted there; `None` exactly
      when it matches nowhere. */
  lemma FindSpec(u: string, sh: Shape)
    requires Separated(sh)
    ensures Find(u, sh).None? <==> forall p, c :: !Accepts(u, sh, p, c)
    ensures forall p, c :: LeftmostLongest(u, sh, p, c) ==> Find(u, sh) == Some(c)
  {
    forall p, c | Accepts(u, sh, p, c) ensures Find(u, sh).Some? {
      FindSome(u, sh, p, c);
    }
    if Find(u, sh).Some? {
      CaptureAccepted(u, sh, Leftmost(u, sh, 0).value);
    }
    forall p, c | LeftmostLongest(u, sh, p, c) ensures Find(u, sh) == Some(c) {
      FindLeftmostLongest(u, sh, p, c);
    }
  }

  /** `c` is accepted at `p`, nothing is accepted before `p`, and no longer
      capture is accepted at `p`: the capture a backtracking regular
      expression engine reports. */
  ghost predicate LeftmostLongest(u: string, sh: Shape, p: int, c: string)
  {
    && Accepts(u, sh, p, c)
    && (forall q, d :: q < p ==> !Accepts(u, sh, q, d))
    && (forall d :: Accepts(u, sh, p, d) ==> |d| <= |c|)
  }

  lemma FindLeftmostLongest(u: string, sh: Shape, p: int, c: string)
    requires Separated(sh) && LeftmostLongest(u, sh, p, c)
    ensures Find(u, sh) == Some(c)
  {
    MatchesAtIffAccepts(u, sh, p);
    var r := Leftmost(u, sh, 0);
    assert p >= 0;
    var p0 := r.value;
    MatchesAtIffAccepts(u, sh, p0);
    var k := Capture(u, sh, p0);
    assert Accepts(u, sh, p0, k);
    assert p <= p0;
    assert p0 <= p;
    AcceptedUnique(u, sh, p, c, k);
  }

  /** The three rewrites, in the order they are tried:
      `stb/commander/([^/]+)/steam$`, `stb/commander/(\d+)/matches` and
      `stb/match/(\d+)`. */
  datatype Pattern = PlayerProfile | MatchList | SingleMatch

  function Rank(pat: Pattern): nat
  {
    match pat
    case PlayerProfile => 0
    case MatchList => 1
    case SingleMatch => 2
  }

  function ShapeOf(pat: Pattern): Shape
  {
    match pat
    case PlayerProfile => Shape("stb/commander/", NotSlash, "/steam", true)
    case MatchList => Shape("stb/commander/", Digit, "/matches", false)
    case SingleMatch => Shape("stb/match/", Digit, "", false)
  }

  lemma ShapesSeparated(pat: Pattern)
    ensures Separated(ShapeOf(pat))
  {
  }

  /** How the caller post-processes the response: `d.data || d` or as is. */
  datatype Transform = UnwrapData | Identity

  datatype Mapped = Mapped(url: string, transform: Transform)

  /** The rewritten request for pattern `pat` with captured id `id`. */
  function Target(pat: Pattern, id: string): Mapped
  {
    match pat
    case PlayerProfile => Mapped(BatraceBase + "/steam/player/" + id, UnwrapData)
    case MatchList => Mapped(BatraceBase + "/stb/matchlistid_by_stbId?stbId=" + id, Identity)
    case SingleMatch => Mapped(BatraceBase + "/stb/match_by_matchid?match_id=" + id, Identity)
  }

  /** `toBatraceUrl(barmoryUrl)`; `None` is the source's `null`. */
  function ToBatraceUrl(u: string): (r: Option<Mapped>)
    ensures r.Some? ==> BatraceBase <= r.value.url
    ensures r.Some? ==> (r.value.transform == UnwrapData <==> Find(u, ShapeOf(PlayerProfile)).Some?)
  {
    match Find(u, ShapeOf(PlayerProfile))
    case Some(id) => Some(Target(PlayerProfile, id))
    case None =>
      match Find(u, ShapeOf(MatchList))
      case Some(id) => Some(Target(MatchList, id))
      case None =>
        match Find(u, ShapeOf(SingleMatch))
        case Some(id) => Some(Target(SingleMatch, id))
        case None => None
  }

  /** `pat` matches nowhere in `u`. */
  ghost predicate Nowhere(u: string, pat: Pattern)
  {
    forall p, c :: !Accepts(u, ShapeOf(pat), p, c)
  }

  /** `Find` for a pattern fails exactly when the pattern matches nowhere. */
  lemma FindNone(u: string, pat: Pattern)
    ensures Find(u, ShapeOf(pat)).None? <==> Nowhere(u, pat)
  {
    ShapesSeparated(pat);
    FindSpec(u, ShapeOf(pat));
  }

  /** There is no rewrite exactly when no pattern matches anywhere. */
  lemma RewriteNone(u: string)
    ensures ToBatraceUrl(u).None? <==> forall pat :: Nowhere(u, pat)
  {
    FindNone(u, PlayerProfile);
    FindNone(u, MatchList);
    FindNone(u, SingleMatch);
    if forall pat :: Nowhere(u, pat) {
      assert Nowhere(u, PlayerProfile) && Nowhere(u, MatchList) && Nowhere(u, SingleMatch);
    }
  }

  /** The rewrite follows the first pattern, in the order tried, that
      matches anywhere, and uses that pattern's leftmost longest capture. */
  lemma RewriteFirst(u: string, pat: Pattern, p: int, c: string)
    requires LeftmostLongest(u, ShapeOf(pat), p, c)
    requires forall pat' :: Rank(pat') < Rank(pat) ==> Nowhere(u, pat')
    ensures ToBatraceUrl(u) == Some(Target(pat, c))
  {
    ShapesSeparated(pat);
    FindLeftmostLongest(u, ShapeOf(pat), p, c);
    if pat != PlayerProfile {
      assert Rank(PlayerProfile) < Rank(pat);
      FindNone(u, PlayerProfile);
    }
    if pat == SingleMatch {
      assert Rank(MatchList) < Rank(pat);
      FindNone(u, MatchList);
    }
  }

  /** Both halves together: the rewrite is the one of the first matching
      pattern, and absent when none matches. */
  lemma ToBatraceUrlSpec(u: string)
    ensures ToBatraceUrl(u).None? <==> forall pat :: Nowhere(u, pat)
    ensures forall pat, p, c :: LeftmostLongest(u, ShapeOf(pat), p, c)
                                && (forall pat' :: Rank(pat') < Rank(pat) ==> Nowhere(u, pat'))
                                ==> ToBatraceUrl(u) == Some(Target(pat, c))
  {
    RewriteNone(u);
    forall pat, p, c | LeftmostLongest(u, ShapeOf(pat), p, c)
                       && (forall pat' :: Rank(pat') < Rank(pat) ==> Nowhere(u, pat'))
      ensures ToBatraceUrl(u) == Some(Target(pat, c))
    {
      RewriteFirst(u, pat, p, c);
    }
  }

  /** Every rewritten URL is on the direct service. */
  lemma ToBatraceUrlBase(u: string)
    ensures ToBatraceUrl(u).Some? ==> HasAt(ToBatraceUrl(u).value.url, BatraceBase, 0)
    ensures ToBatraceUrl(u).Some? ==>
              (ToBatraceUrl(u).value.transform == UnwrapData <==> Find(u, ShapeOf(PlayerProfile)).Some?)
  {
    if ToBatraceUrl(u).Some? {
      var url := ToBatraceUrl(u).value.url;
      assert url[..|BatraceBase|] == BatraceBase;
    }
  }

  /** Nothing is rewritten in an empty path. */
  lemma ToBatraceUrlEmpty()
    ensures ToBatraceUrl("") == None
  {
  }

  /** A pattern whose lead with one captured character is longer than the
      input matches nowhere in it. */
  lemma TooShort(u: string, pat: Pattern)
    requires |u| <= |ShapeOf(pat).lead|
    ensures Nowhere(u, pat)
  {
  }

  /** In "/stb/match/7" the single-match pattern first matches at 1 and
      captures "7". */
  lemma SingleMatchFound()
    ensures LeftmostLongest("/stb/match/7", ShapeOf(SingleMatch), 1, "7")
  {
    var u := "/stb/match/7";
    var sh := ShapeOf(SingleMatch);
    assert HasAt(u, sh.lead + "7" + sh.trail, 1) by {
      assert u[1..12] == "stb/match/7";
    }
    forall q, d | q < 1 ensures !Accepts(u, sh, q, d) {
      if q == 0 {
        assert u[0] != sh.lead[0];
      }
    }
    forall d | Accepts(u, sh, 1, d) ensures |d| <= 1 {
      assert 1 + |sh.lead| + |d| <= |u|;
    }
  }

  /** A single-match path is rewritten to the match lookup: the commander
      patterns are too long to occur in it. */
  lemma SingleMatchExample()
    ensures ToBatraceUrl("/stb/match/7") == Some(Target(SingleMatch, "7"))
  {
    var u := "/stb/match/7";
    SingleMatchFound();
    TooShort(u, PlayerProfile);
    TooShort(u, MatchList);
    forall pat' | Rank(pat') < Rank(SingleMatch) ensures Nowhere(u, pat') {
      assert pat' == PlayerProfile || pat' == MatchList;
    }
    RewriteFirst(u, SingleMatch, 1, "7");
  }
}
