/**
 * Every reference in a PokeAPI document is a URL ending in `/{id}/`;
 * `extract_pokemon_id_from_url` recovers the id.
 */
module PokeUrls {
  import opened Wrappers
  import opened Text

  /** Raised by Python's `int()` when the last path segment is not an integer literal. */
  datatype UrlError = NotAnInteger(segment: String)

  /** The last `/`-separated segment once trailing slashes are removed (`parts[-1]`). */
  function LastSegment(url: String): (seg: String)
    ensures '/' !in seg
  {
    var parts := Split(RStripChar(url, '/'), '/');
    parts[|parts| - 1]
  }

  /** `int(url.rstrip('/').split('/')[-1])`. */
  function ExtractId(url: String): (r: Result<int, UrlError>)
    ensures r.Err? <==> !IsIntLiteral(Strip(LastSegment(url)))
    ensures r.Err? ==> r.error == NotAnInteger(LastSegment(url))
  {
    match ParseInt(LastSegment(url))
    case Some(n) => Ok(n)
    case None => Err(NotAnInteger(LastSegment(url)))
  }

  /** `n` trailing slashes. */
  function Slashes(n: nat): String
  {
    Repeat('/', n)
  }

  /** Trailing slashes, however many, do not change the segment that is read. */
  lemma {:induction false} RStripSlashes(body: String, k: nat)
    requires body != [] && body[|body| - 1] != '/'
    ensures RStripChar(body + Slashes(k), '/') == body
  {
    if k > 0 {
      assert body + Slashes(k) == (body + Slashes(k - 1)) + ['/'];
      assert (body + Slashes(k))[..|body + Slashes(k)| - 1] == body + Slashes(k - 1);
      RStripSlashes(body, k - 1);
    } else {
      assert body + Slashes(k) == body;
    }
  }

  /** The segment after the last `/` is read back, whatever comes before it and however many slashes follow. */
  lemma LastSegmentOfUrl(prefix: String, seg: String, k: nat)
    requires seg != [] && seg[|seg| - 1] != '/' && '/' !in seg
    ensures LastSegment(prefix + "/" + seg + Slashes(k)) == seg
  {
    var body := prefix + "/" + seg;
    assert body + Slashes(k) == prefix + "/" + seg + Slashes(k);
    RStripSlashes(body, k);
    assert body == prefix + ['/'] + seg;
    SplitAround(prefix, '/', seg);
    SplitNoSep(seg, '/');
  }

  /**
   * The URL round trip: whatever comes before it, a URL `prefix/{n}` followed by any
   * number of slashes yields `n` (so `.../pokemon/1/` gives 1).
   */
  lemma ExtractIdOfUrl(prefix: String, n: int, k: nat)
    ensures ExtractId(prefix + "/" + IntToString(n) + Slashes(k)) == Ok(n)
  {
    var d := IntToString(n);
    LastSegmentOfUrl(prefix, d, k);
    IntRoundTrip(n);
  }

  /** A segment holding a lower-case letter is not an integer literal, stripped or not. */
  lemma NameNotInteger(name: String, i: int)
    requires 0 <= i < |name| && 'a' <= name[i] <= 'z'
    ensures !IsIntLiteral(Strip(name))
  {
    StripKeepsNonSpace(name, i);
    if IsIntLiteral(Strip(name)) {
      IntLiteralChars(Strip(name));
      assert false;
    }
  }

  /** A URL whose last segment holds a lower-case letter (a name, not an id) is malformed: extraction fails. */
  lemma ExtractIdRejectsName(prefix: String, name: String, k: nat)
    requires name != [] && name[|name| - 1] != '/' && '/' !in name
    requires exists i :: 0 <= i < |name| && 'a' <= name[i] <= 'z'
    ensures ExtractId(prefix + "/" + name + Slashes(k)).Err?
  {
    LastSegmentOfUrl(prefix, name, k);
    var i :| 0 <= i < |name| && 'a' <= name[i] <= 'z';
    NameNotInteger(name, i);
  }

  /** Python's `s.replace(pat, rep)`: every non-overlapping occurrence, scanning left to right. */
  function ReplaceAll(s: String, pat: String, rep: String): String
    requires pat != []
    decreases |s|
  {
    if |s| < |pat| then s
    else if s[..|pat|] == pat then rep + ReplaceAll(s[|pat|..], pat, rep)
    else [s[0]] + ReplaceAll(s[1..], pat, rep)
  }

  /** The rewrite applied to a species URL before its id is read (`replace('pokemon-species', 'pokemon')`). */
  function SpeciesToPokemon(url: String): String
  {
    ReplaceAll(url, "pokemon-species", "pokemon")
  }

  lemma {:induction false} ReplaceAbsent(s: String, pat: String, rep: String)
    requires pat != [] && pat[0] !in s
    ensures ReplaceAll(s, pat, rep) == s
    decreases |s|
  {
    if |s| >= |pat| {
      assert s[..|pat|][0] == s[0];
      ReplaceAbsent(s[1..], pat, rep);
    }
  }

  /** A character that cannot occur in the pattern separates two independent replacements. */
  lemma {:induction false} ReplaceSplits(a: String, c: char, b: String, pat: String, rep: String)
    requires pat != [] && c !in pat
    ensures ReplaceAll(a + [c] + b, pat, rep) == ReplaceAll(a, pat, rep) + [c] + ReplaceAll(b, pat, rep)
    decreases |a|
  {
    var s := a + [c] + b;
    if |a| < |pat| {
      if |s| >= |pat| {
        assert s[..|pat|][|a|] == c;
        assert s[..|pat|] != pat;
      }
      if a == [] {
        assert s[1..] == b;
        if |s| >= |pat| {
          assert s[..|pat|] != pat;
        }
        assert s == [c] + b;
        if |b| < |pat| {
          assert ReplaceAll(s, pat, rep) == [c] + ReplaceAll(b, pat, rep);
        }
      } else {
        assert s[1..] == a[1..] + [c] + b;
        ReplaceSplits(a[1..], c, b, pat, rep);
        ReplaceSmallPrefix(a, pat, rep);
      }
    } else if a[..|pat|] == pat {
      assert s[..|pat|] == pat;
      assert s[|pat|..] == a[|pat|..] + [c] + b;
      ReplaceSplits(a[|pat|..], c, b, pat, rep);
    } else {
      assert s[..|pat|] == a[..|pat|];
      assert s[1..] == a[1..] + [c] + b;
      ReplaceSplits(a[1..], c, b, pat, rep);
    }
  }

  /** A non-empty string shorter than the pattern keeps its first character in front. */
  lemma ReplaceSmallPrefix(a: String, pat: String, rep: String)
    requires pat != [] && 0 < |a| < |pat|
    ensures ReplaceAll(a, pat, rep) == [a[0]] + ReplaceAll(a[1..], pat, rep)
  {
    ReplaceShort(a, pat, rep);
    ReplaceShort(a[1..], pat, rep);
  }

  lemma ReplaceShort(a: String, pat: String, rep: String)
    requires pat != [] && |a| < |pat|
    ensures ReplaceAll(a, pat, rep) == a
  {
  }

  /**
   * The species-to-pokemon rewrite never changes the id of a well-formed species URL:
   * `.../pokemon-species/{n}/` and `.../pokemon/{n}/` name the same id.
   */
  lemma SpeciesUrlId(prefix: String, n: int)
    ensures ExtractId(SpeciesToPokemon(prefix + "/" + IntToString(n) + "/")) == Ok(n)
  {
    var d := IntToString(n);
    var species := "pokemon-species";
    assert prefix + "/" + d + "/" == prefix + ['/'] + (d + "/");
    ReplaceSplits(prefix, '/', d + "/", species, "pokemon");
    assert 'p' !in d + "/" by {
      assert forall i :: 0 <= i < |d| ==> d[i] == '-' || IsDigit(d[i]) by {
        if n < 0 {
          assert d[1..] == NatToString(-n);
        }
      }
    }
    ReplaceAbsent(d + "/", species, "pokemon");
    var r := ReplaceAll(prefix, species, "pokemon");
    assert SpeciesToPokemon(prefix + "/" + d + "/") == r + "/" + d + Slashes(1);
    ExtractIdOfUrl(r, n, 1);
  }
}
