/**
 * The photo URLs written into a patched slot: the player's `Code` spliced
 * into the Premier League CDN template at two sizes.
 */
module Photo {
  import opened Wrappers
  import opened Text
  import opened PlayerData

  const CdnBase := "//resources.premierleague.com/premierleague/photos/players/"
  const SmallSize := "110x140"
  const LargeSize := "250x250"

  /** Text of `${v}` in a template literal: `undefined` prints as "undefined". */
  function Interpolate(v: Option<string>): string
  {
    match v
    case Some(s) => s
    case None => "undefined"
  }

  /** `//resources.premierleague.com/.../players/{size}/p{code}.png`. */
  function PhotoUrl(size: string, code: string): string
  {
    CdnBase + size + "/p" + code + ".png"
  }

  /**
   * A photo URL starts with the CDN path for its size, ends in ".png", and
   * holds the code in between, so the code can be read back from it.
   */
  lemma PhotoUrlParts(size: string, code: string)
    ensures var url := PhotoUrl(size, code);
            var n := |CdnBase + size + "/p"|;
            && StartsWith(url, CdnBase + size + "/p")
            && |url| == n + |code| + 4
            && url[n..|url| - 4] == code
            && url[|url| - 4..] == ".png"
  {
    var prefix := CdnBase + size + "/p";
    var url := PhotoUrl(size, code);
    assert url == prefix + code + ".png";
    assert url[..|prefix|] == prefix;
    assert url[|prefix|..|url| - 4] == code;
  }

  /** A photo URL determines the code it was built from. */
  lemma PhotoUrlInjective(size: string, code1: string, code2: string)
    requires PhotoUrl(size, code1) == PhotoUrl(size, code2)
    ensures code1 == code2
  {
    PhotoUrlParts(size, code1);
    PhotoUrlParts(size, code2);
  }

  /** One `srcset` entry: a URL and its width descriptor (`110w`). */
  datatype Candidate = Candidate(url: string, width: nat)

  /** The player's `src`: the 110x140 photo. */
  function Src(p: Record): string
  {
    PhotoUrl(SmallSize, Interpolate(Get(p, "Code")))
  }

  /** The player's `srcset`: the 110x140 photo at 110w, then the 250x250 photo at 250w. */
  function Srcset(p: Record): seq<Candidate>
  {
    [Candidate(Src(p), 110), Candidate(PhotoUrl(LargeSize, Interpolate(Get(p, "Code"))), 250)]
  }

  /** The CDN path of each photo size, spelled out. */
  lemma SizePrefixes()
    ensures CdnBase + SmallSize + "/p" == "//resources.premierleague.com/premierleague/photos/players/110x140/p"
    ensures CdnBase + LargeSize + "/p" == "//resources.premierleague.com/premierleague/photos/players/250x250/p"
  {
  }

  /**
   * The URLs spelled out: `src` is the 110x140 photo of `Code`, and `srcset`
   * lists it at 110w followed by the 250x250 photo at 250w.
   */
  lemma PhotoTemplates(p: Record)
    ensures Src(p) == "//resources.premierleague.com/premierleague/photos/players/110x140/p"
                      + Interpolate(Get(p, "Code")) + ".png"
    ensures |Srcset(p)| == 2 && Srcset(p)[0] == Candidate(Src(p), 110)
    ensures Srcset(p)[1] == Candidate("//resources.premierleague.com/premierleague/photos/players/250x250/p"
                                      + Interpolate(Get(p, "Code")) + ".png", 250)
  {
    SizePrefixes();
  }

  /** Two players with different codes get different photos. */
  lemma SrcDistinguishesCodes(p: Record, q: Record)
    requires Get(p, "Code").Some? && Get(q, "Code").Some?
    requires Get(p, "Code") != Get(q, "Code")
    ensures Src(p) != Src(q)
  {
    if Src(p) == Src(q) {
      PhotoUrlInjective(SmallSize, Interpolate(Get(p, "Code")), Interpolate(Get(q, "Code")));
    }
  }
}
