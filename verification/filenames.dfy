/** Output file names: `_sanitize_filename` of both card generators and the
    default output name of the PNG-to-PDF converter. Character classes are
    ASCII: `isalnum` and `lower` are taken on ASCII letters and digits. */
module FileNames {
  import opened Wrappers

  predicate IsAlnum(c: char) {
    ('a' <= c <= 'z') || ('A' <= c <= 'Z') || ('0' <= c <= '9')
  }

  /** The characters a sanitized name is made of. */
  predicate IsSafe(c: char) {
    ('a' <= c <= 'z') || ('0' <= c <= '9') || c == '-' || c == '_'
  }

  function Lower(c: char): char {
    if 'A' <= c <= 'Z' then (c as int - 'A' as int + 'a' as int) as char else c
  }

  /** The character filter: alphanumerics, space, '-' and '_' survive, anything
      else becomes '_'. */
  function Keep(c: char): char {
    if IsAlnum(c) || c == ' ' || c == '-' || c == '_' then c else '_'
  }

  function KeepAll(s: string): (r: string)
    ensures |r| == |s| && forall k :: 0 <= k < |s| ==> r[k] == Keep(s[k])
  {
    seq(|s|, k requires 0 <= k < |s| => Keep(s[k]))
  }

  /** The final `replace(' ', '_').lower()`. */
  function Finish(s: string): (r: string)
    ensures |r| == |s| && forall k :: 0 <= k < |s| ==> r[k] == (if s[k] == ' ' then '_' else Lower(s[k]))
  {
    seq(|s|, k requires 0 <= k < |s| => if s[k] == ' ' then '_' else Lower(s[k]))
  }

  /** Number of leading spaces. */
  function LeadingSpaces(s: string): (n: nat)
    ensures n <= |s|
    ensures forall k :: 0 <= k < n ==> s[k] == ' '
    ensures n < |s| ==> s[n] != ' '
  {
    if |s| > 0 && s[0] == ' ' then 1 + LeadingSpaces(s[1..]) else 0
  }

  /** Number of trailing spaces. */
  function TrailingSpaces(s: string): (n: nat)
    ensures n <= |s|
    ensures forall k :: |s| - n <= k < |s| ==> s[k] == ' '
    ensures n < |s| ==> s[|s| - 1 - n] != ' '
  {
    if |s| > 0 && s[|s| - 1] == ' ' then 1 + TrailingSpaces(s[..|s| - 1]) else 0
  }

  /** `str.strip()` on a filtered name. The filter has already turned every
      other whitespace character into '_', so only spaces are left to strip. */
  function StripSpaces(s: string): (r: string)
    ensures |r| <= |s| - LeadingSpaces(s)
    ensures r == s[LeadingSpaces(s)..LeadingSpaces(s) + |r|]
    ensures forall k :: LeadingSpaces(s) + |r| <= k < |s| ==> s[k] == ' '
    ensures |r| > 0 ==> r[0] != ' ' && r[|r| - 1] != ' '
  {
    var rest := s[LeadingSpaces(s)..];
    rest[..|rest| - TrailingSpaces(rest)]
  }

  /** What one character of a name becomes in the file name: a space becomes
      '_', an unsafe character becomes '_', a capital letter becomes lower
      case, and every other character is kept. */
  function SafeChar(c: char): char {
    if c == ' ' then '_' else Lower(Keep(c))
  }

  /** `r` is `name` with its leading and trailing spaces cut off and every
      remaining character mapped by `SafeChar`. */
  predicate Sanitized(name: string, r: string) {
    var a := LeadingSpaces(name);
    && a + |r| <= |name|
    && (forall k :: 0 <= k < |r| ==> r[k] == SafeChar(name[a + k]))
    && (forall k :: a + |r| <= k < |name| ==> name[k] == ' ')
    && (|r| > 0 ==> name[a + |r| - 1] != ' ')
  }

  /** `_sanitize_filename`: filter, strip, spaces to underscores, lower case.
      The result is the name with its leading and trailing spaces cut off,
      each remaining character mapped by `SafeChar`; so it is made of safe
      characters only and is never longer than the name. */
  function SanitizeFilename(name: string): (r: string)
    ensures Sanitized(name, r)
    ensures forall k :: 0 <= k < |r| ==> IsSafe(r[k])
    ensures |r| <= |name|
  {
    SanitizeStages(name);
    SanitizeIsSafe(name);
    Finish(StripSpaces(KeepAll(name)))
  }

  /** The three stages of the code compose to `Sanitized`. */
  lemma SanitizeStages(name: string)
    ensures Sanitized(name, Finish(StripSpaces(KeepAll(name))))
  {
    SanitizeExtent(name);
    SanitizeMap(name);
  }

  /** The extent of the sanitized name: the name's leading spaces and a run
      of trailing spaces are cut off, and no other character. */
  lemma SanitizeExtent(name: string)
    ensures var r := Finish(StripSpaces(KeepAll(name)));
            && LeadingSpaces(name) + |r| <= |name|
            && (forall k :: LeadingSpaces(name) + |r| <= k < |name| ==> name[k] == ' ')
            && (|r| > 0 ==> name[LeadingSpaces(name) + |r| - 1] != ' ')
  {
    KeptStrip(name);
  }

  /** Each character of the sanitized name is `SafeChar` of the name's
      character at the same offset past its leading spaces. */
  lemma SanitizeMap(name: string)
    ensures var r := Finish(StripSpaces(KeepAll(name)));
            && LeadingSpaces(name) + |r| <= |name|
            && forall k :: 0 <= k < |r| ==> r[k] == SafeChar(name[LeadingSpaces(name) + k])
  {
    var s := StripSpaces(KeepAll(name));
    KeptStrip(name);
    FinishFiltered(name, LeadingSpaces(name), s);
  }

  /** Finishing a run of filtered characters of `name` starting at `a` maps
      each of them by `SafeChar`. */
  lemma FinishFiltered(name: string, a: nat, s: string)
    requires a + |s| <= |name|
    requires forall j :: 0 <= j < |s| ==> s[j] == Keep(name[a + j])
    ensures |Finish(s)| == |s|
    ensures forall k :: 0 <= k < |s| ==> Finish(s)[k] == SafeChar(name[a + k])
  {
    forall k | 0 <= k < |s|
      ensures Finish(s)[k] == SafeChar(name[a + k])
    {
      FinishOfKeep(name[a + k]);
    }
  }

  /** Every character of the sanitized name is safe. */
  lemma SanitizeIsSafe(name: string)
    ensures var r := Finish(StripSpaces(KeepAll(name)));
            forall k :: 0 <= k < |r| ==> IsSafe(r[k])
  {
    var r := Finish(StripSpaces(KeepAll(name)));
    SanitizeMap(name);
    forall k | 0 <= k < |r|
      ensures IsSafe(r[k])
    {
      FinishOfKeep(name[LeadingSpaces(name) + k]);
    }
  }

  /** Filtering and then finishing one character is `SafeChar`, a safe character. */
  lemma FinishOfKeep(c: char)
    ensures (if Keep(c) == ' ' then '_' else Lower(Keep(c))) == SafeChar(c)
    ensures IsSafe(SafeChar(c))
  {
  }

  /** The filter keeps spaces where they are, so stripping the filtered name
      cuts off exactly the name's own leading and trailing spaces. */
  lemma KeptStrip(name: string)
    ensures var s := StripSpaces(KeepAll(name));
            var a := LeadingSpaces(name);
            && a + |s| <= |name|
            && (forall k :: 0 <= k < |s| ==> s[k] == Keep(name[a + k]))
            && (forall k :: a + |s| <= k < |name| ==> name[k] == ' ')
            && (|s| > 0 ==> name[a + |s| - 1] != ' ')
  {
    var kept := KeepAll(name);
    assert SameSpaces(kept, name);
    LeadingAlike(kept, name);
  }

  /** A safe string passes every stage unchanged. */
  lemma SafeIsFixed(s: string)
    requires forall k :: 0 <= k < |s| ==> IsSafe(s[k])
    ensures SanitizeFilename(s) == s
  {
    var kept := KeepAll(s);
    assert kept == s;
    assert LeadingSpaces(s) == 0 by {
      if |s| > 0 {
        assert IsSafe(s[0]);
      }
    }
    assert TrailingSpaces(s) == 0 by {
      if |s| > 0 {
        assert IsSafe(s[|s| - 1]);
      }
    }
    assert StripSpaces(s) == s;
  }

  /** Sanitizing twice is sanitizing once. */
  lemma SanitizeIdempotent(name: string)
    ensures SanitizeFilename(SanitizeFilename(name)) == SanitizeFilename(name)
  {
    SafeIsFixed(SanitizeFilename(name));
  }

  /** Strings with spaces in the same places. */
  predicate SameSpaces(a: string, b: string) {
    |a| == |b| && forall k :: 0 <= k < |a| ==> (a[k] == ' ' <==> b[k] == ' ')
  }

  lemma {:induction false} LeadingAlike(a: string, b: string)
    requires SameSpaces(a, b)
    ensures LeadingSpaces(a) == LeadingSpaces(b)
    decreases |a|
  {
    if |a| > 0 {
      LeadingAlike(a[1..], b[1..]);
    }
  }

  lemma {:induction false} TrailingAlike(a: string, b: string)
    requires SameSpaces(a, b)
    ensures TrailingSpaces(a) == TrailingSpaces(b)
    decreases |a|
  {
    if |a| > 0 {
      TrailingAlike(a[..|a| - 1], b[..|b| - 1]);
    }
  }

  /** Strings alike up to letter case. */
  predicate SameUpToCase(a: string, b: string) {
    SameSpaces(a, b) && forall k :: 0 <= k < |a| ==> Lower(a[k]) == Lower(b[k])
  }

  lemma FinishAlike(a: string, b: string)
    requires SameUpToCase(a, b)
    ensures Finish(a) == Finish(b)
  {
  }

  lemma StripAlike(a: string, b: string)
    requires SameUpToCase(a, b)
    ensures SameUpToCase(StripSpaces(a), StripSpaces(b))
  {
    LeadingAlike(a, b);
    var n := LeadingSpaces(a);
    assert SameSpaces(a[n..], b[n..]);
    TrailingAlike(a[n..], b[n..]);
  }

  /** Names that differ only in letter case get the same file name, so their
      cards overwrite each other. */
  lemma SanitizeIgnoresCase(a: string, b: string)
    requires |a| == |b| && forall k :: 0 <= k < |a| ==> Lower(a[k]) == Lower(b[k])
    ensures SanitizeFilename(a) == SanitizeFilename(b)
  {
    var ka := KeepAll(a);
    var kb := KeepAll(b);
    forall k | 0 <= k < |a|
      ensures (ka[k] == ' ' <==> kb[k] == ' ') && Lower(ka[k]) == Lower(kb[k])
    {
      if !('A' <= a[k] <= 'Z') && !('A' <= b[k] <= 'Z') {
        assert a[k] == b[k];
      }
    }
    assert SameUpToCase(ka, kb);
    StripAlike(ka, kb);
    FinishAlike(StripSpaces(ka), StripSpaces(kb));
  }

  /** A concrete case: the dot and the space both become '_', and the outer
      spaces are stripped. */
  lemma SanitizeExample()
    ensures SanitizeFilename(" Dr. Lee ") == "dr__lee"
  {
    KeepExample();
    StripExample();
    FinishExample();
    assert SanitizeFilename(" Dr. Lee ") == Finish(StripSpaces(KeepAll(" Dr. Lee ")));
  }

  lemma FinishExample()
    ensures Finish("Dr_ Lee") == "dr__lee"
  {
  }

  lemma KeepExample()
    ensures KeepAll(" Dr. Lee ") == " Dr_ Lee "
  {
    var kept := KeepAll(" Dr. Lee ");
    forall k | 0 <= k < 9
      ensures kept[k] == " Dr_ Lee "[k]
    {
      assert Keep(" Dr. Lee "[k]) == " Dr_ Lee "[k];
    }
  }

  lemma StripExample()
    ensures StripSpaces(" Dr_ Lee ") == "Dr_ Lee"
  {
    var kept := " Dr_ Lee ";
    assert LeadingSpaces(kept) == 1 by {
      assert kept[1..][0] == 'D';
    }
    var rest := kept[1..];
    assert rest == "Dr_ Lee ";
    assert TrailingSpaces(rest) == 1 by {
      assert rest[..|rest| - 1][|rest| - 2] == 'e';
    }
  }

  /** Index of the last '.', or -1. */
  function LastDot(s: string): (i: int)
    ensures -1 <= i < |s|
    ensures i >= 0 ==> s[i] == '.'
    ensures forall k :: i < k < |s| ==> s[k] != '.'
  {
    if |s| == 0 then -1
    else if s[|s| - 1] == '.' then |s| - 1
    else LastDot(s[..|s| - 1])
  }

  /** `Path.stem` of a file name: everything before the last '.', unless that
      dot is the first or the last character. */
  function Stem(name: string): (stem: string)
    ensures stem <= name
    ensures stem == name || (&& 0 < |stem| && |stem| + 1 < |name| && name[|stem|] == '.'
                             && forall k :: |stem| < k < |name| ==> name[k] != '.')
    ensures stem == name ==>
      forall k :: 0 < k < |name| - 1 && name[k] == '.' ==> exists j :: k < j < |name| && name[j] == '.'
  {
    var i := LastDot(name);
    if 0 < i < |name| - 1 then name[..i]
    else
      assert forall k :: 0 < k < |name| - 1 && name[k] == '.' ==> k < i == |name| - 1;
      name
  }

  /** The converter's default output name: `stem + output_suffix + '.pdf'`,
      the suffix defaulting to `_pdf`. */
  function ConvertedPdfName(fileName: string, outputSuffix: Option<string>): (out: string)
    ensures Stem(fileName) <= out
    ensures |out| >= 4 && out[|out| - 4..] == ".pdf"
    ensures |Stem(fileName)| <= |out| - 4 && out[|Stem(fileName)|..|out| - 4] == outputSuffix.GetOr("_pdf")
  {
    Stem(fileName) + outputSuffix.GetOr("_pdf") + ".pdf"
  }

  /** Characters without a dot leave the last dot where it was. */
  lemma {:induction false} LastDotSkips(s: string, t: string)
    requires forall k :: 0 <= k < |t| ==> t[k] != '.'
    ensures LastDot(s + t) == LastDot(s)
    decreases |t|
  {
    if |t| == 0 {
      assert s + t == s;
    } else {
      assert (s + t)[..|s + t| - 1] == s + t[..|t| - 1];
      LastDotSkips(s, t[..|t| - 1]);
    }
  }

  /** A card image `<stem>.png` is converted to `<stem>_pdf.pdf` by default. */
  lemma ConvertedNameOfPng(stem: string)
    requires |stem| > 0
    ensures ConvertedPdfName(stem + ".png", None) == stem + "_pdf.pdf"
  {
    ConvertedNameOfPngWith(stem, None);
  }

  /** A card image `<stem>.png` is converted to the stem, the configured
      suffix (`_pdf` when none is set) and `.pdf`. */
  lemma ConvertedNameOfPngWith(stem: string, outputSuffix: Option<string>)
    requires |stem| > 0
    ensures ConvertedPdfName(stem + ".png", outputSuffix) == stem + outputSuffix.GetOr("_pdf") + ".pdf"
  {
    var name := stem + ".png";
    assert name == (stem + ".") + "png";
    LastDotSkips(stem + ".", "png");
    assert LastDot(stem + ".") == |stem|;
    assert name[..|stem|] == stem;
  }
}
