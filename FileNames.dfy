/** Local file names derived from blob names: the sanitiser `AsSafeFileName`,
    the helpers that rewrite the `.mp4` extension before sanitising, and the
    null/empty test of `AsUri`. The platform's `Path.GetInvalidFileNameChars()`
    is the parameter `invalidChars`. */
module FileNames {
  import opened Text

  /** The list the sanitiser walks: the platform's invalid characters, then '%' and ' '. */
  function UnsafeChars(invalidChars: seq<char>): (u: seq<char>)
    ensures '%' in u && ' ' in u
    ensures forall c :: c in invalidChars ==> c in u
    ensures forall c :: c in u ==> c in invalidChars || c == '%' || c == ' '
  {
    invalidChars + ['%', ' ']
  }

  /** The name the sanitiser produces (specification of `AsSafeFileName`). */
  function Sanitize(x: string, invalidChars: seq<char>): (r: string)
    ensures |r| == |x|
    ensures '_' !in invalidChars ==> forall i :: 0 <= i < |r| ==> r[i] !in UnsafeChars(invalidChars)
    ensures forall i :: 0 <= i < |x| && x[i] !in UnsafeChars(invalidChars) ==> r[i] == x[i]
  {
    seq(|x|, i requires 0 <= i < |x| => if x[i] in UnsafeChars(invalidChars) then '_' else x[i])
  }

  /** `AsSafeFileName`: replaces, one unsafe character after the other, every
      occurrence of it by '_'. The name is kept as a string; the `FileInfo`
      wrapped around it is not modelled. */
  method AsSafeFileName(x: string, invalidChars: seq<char>) returns (r: string)
    ensures |r| == |x|
    ensures forall i :: 0 <= i < |x| ==> r[i] == (if x[i] in UnsafeChars(invalidChars) then '_' else x[i])
    ensures '_' !in invalidChars ==> forall i :: 0 <= i < |r| ==> r[i] !in UnsafeChars(invalidChars)
    ensures r == Sanitize(x, invalidChars)
  {
    var unsafeChars := UnsafeChars(invalidChars);
    r := x;
    for n := 0 to |unsafeChars|
      invariant |r| == |x|
      invariant forall i :: 0 <= i < |x| ==> r[i] == (if x[i] in unsafeChars[..n] then '_' else x[i])
    {
      assert unsafeChars[..n + 1] == unsafeChars[..n] + [unsafeChars[n]];
      r := ReplaceChar(r, unsafeChars[n], '_');
    }
    assert unsafeChars[..|unsafeChars|] == unsafeChars;
  }

  /** Sanitising twice is sanitising once, whatever the platform's set: '_' is
      either safe or itself mapped to '_'. */
  lemma SanitizeIdempotent(x: string, invalidChars: seq<char>)
    ensures Sanitize(Sanitize(x, invalidChars), invalidChars) == Sanitize(x, invalidChars)
  {
  }

  /** Sanitising works character by character, so it distributes over concatenation. */
  lemma SanitizeConcat(a: string, b: string, invalidChars: seq<char>)
    ensures Sanitize(a + b, invalidChars) == Sanitize(a, invalidChars) + Sanitize(b, invalidChars)
  {
  }

  /** A name made only of safe characters is left as it is. */
  lemma SanitizeSafe(x: string, invalidChars: seq<char>)
    requires forall i :: 0 <= i < |x| ==> x[i] !in UnsafeChars(invalidChars)
    ensures Sanitize(x, invalidChars) == x
  {
  }

  const Mp4: string := ".mp4"

  /** `AsLocalFile`: the sanitiser and nothing else. */
  method AsLocalFile(filename: string, invalidChars: seq<char>) returns (r: string)
    ensures r == Sanitize(filename, invalidChars)
  {
    r := AsSafeFileName(filename, invalidChars);
  }

  /** `AsStatsFile`: every ".mp4" becomes ".stats", then the name is sanitised. */
  method AsStatsFile(filename: string, invalidChars: seq<char>) returns (r: string)
    ensures r == Sanitize(ReplaceAll(filename, Mp4, ".stats"), invalidChars)
    ensures IndexOf(filename, Mp4).None? ==> r == Sanitize(filename, invalidChars)
  {
    ReplaceAllByIndexOf(filename, Mp4, ".stats");
    r := AsSafeFileName(ReplaceAll(filename, Mp4, ".stats"), invalidChars);
  }

  /** `AsMmrkFile`: every ".mp4" becomes ".mmrk", then the name is sanitised. */
  method AsMmrkFile(filename: string, invalidChars: seq<char>) returns (r: string)
    ensures r == Sanitize(ReplaceAll(filename, Mp4, ".mmrk"), invalidChars)
    ensures IndexOf(filename, Mp4).None? ==> r == Sanitize(filename, invalidChars)
  {
    ReplaceAllByIndexOf(filename, Mp4, ".mmrk");
    r := AsSafeFileName(ReplaceAll(filename, Mp4, ".mmrk"), invalidChars);
  }

  /** The text `AsWatermarkFileForUser` puts in place of ".mp4". */
  function UserSuffix(userid: string): string {
    "-" + userid + Mp4
  }

  /** `AsWatermarkFileForUser`: every ".mp4" becomes "-<userid>.mp4", then the
      whole name, the inserted user id included, is sanitised. */
  method AsWatermarkFileForUser(filename: string, userid: string, invalidChars: seq<char>) returns (r: string)
    ensures r == Sanitize(ReplaceAll(filename, Mp4, UserSuffix(userid)), invalidChars)
    ensures IndexOf(filename, Mp4).None? ==> r == Sanitize(filename, invalidChars)
  {
    ReplaceAllByIndexOf(filename, Mp4, UserSuffix(userid));
    r := AsSafeFileName(ReplaceAll(filename, Mp4, UserSuffix(userid)), invalidChars);
  }

  /** The characters of the fixed texts the helpers insert are safe. */
  predicate InsertedTextSafe(invalidChars: seq<char>) {
    forall c :: c in ".-mp4stamrk" ==> c !in invalidChars
  }

  /** For "<stem>.mp4" with no earlier ".mp4", the stats file is the sanitised stem plus ".stats". */
  lemma {:induction false} StatsFileOfMp4(stem: string, invalidChars: seq<char>)
    requires forall j :: 0 <= j < |stem| ==> !MatchAt(stem + Mp4, Mp4, j)
    requires InsertedTextSafe(invalidChars)
    ensures Sanitize(ReplaceAll(stem + Mp4, Mp4, ".stats"), invalidChars) == Sanitize(stem, invalidChars) + ".stats"
  {
    assert stem + Mp4 + "" == stem + Mp4;
    ReplaceAllFirst(stem, Mp4, ".stats", "");
    SanitizeConcat(stem, ".stats", invalidChars);
    SanitizeSafe(".stats", invalidChars);
  }

  /** For "<stem>.mp4" with no earlier ".mp4", the mark file is the sanitised stem plus ".mmrk". */
  lemma {:induction false} MmrkFileOfMp4(stem: string, invalidChars: seq<char>)
    requires forall j :: 0 <= j < |stem| ==> !MatchAt(stem + Mp4, Mp4, j)
    requires InsertedTextSafe(invalidChars)
    ensures Sanitize(ReplaceAll(stem + Mp4, Mp4, ".mmrk"), invalidChars) == Sanitize(stem, invalidChars) + ".mmrk"
  {
    assert stem + Mp4 + "" == stem + Mp4;
    ReplaceAllFirst(stem, Mp4, ".mmrk", "");
    SanitizeConcat(stem, ".mmrk", invalidChars);
    SanitizeSafe(".mmrk", invalidChars);
  }

  /** For "<stem>.mp4" with no earlier ".mp4", the per-user file is
      "<stem>-<userid>.mp4" with the stem and the user id each sanitised:
      an unsafe character in the user id becomes '_' as well. */
  lemma {:induction false} WatermarkFileOfMp4(stem: string, userid: string, invalidChars: seq<char>)
    requires forall j :: 0 <= j < |stem| ==> !MatchAt(stem + Mp4, Mp4, j)
    requires InsertedTextSafe(invalidChars)
    ensures Sanitize(ReplaceAll(stem + Mp4, Mp4, UserSuffix(userid)), invalidChars)
         == Sanitize(stem, invalidChars) + "-" + Sanitize(userid, invalidChars) + Mp4
  {
    assert stem + Mp4 + "" == stem + Mp4;
    ReplaceAllFirst(stem, Mp4, UserSuffix(userid), "");
    assert stem + UserSuffix(userid) + ReplaceAll("", Mp4, UserSuffix(userid)) == stem + "-" + userid + Mp4;
    SanitizeConcat(stem + "-" + userid, Mp4, invalidChars);
    SanitizeConcat(stem + "-", userid, invalidChars);
    SanitizeConcat(stem, "-", invalidChars);
    SanitizeSafe("-", invalidChars);
    SanitizeSafe(Mp4, invalidChars);
  }

  /** `AsUri`, up to the parse: a null or empty text gives no URI; any other
      text is handed to the URI parser, which is not modelled. */
  function AsUri(uri: Option<string>): (r: Option<string>)
    ensures r.None? <==> uri.None? || uri.value == ""
    ensures r.Some? ==> r == uri
  {
    if uri.None? || uri.value == "" then None else uri
  }
}
