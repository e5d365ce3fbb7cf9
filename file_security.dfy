/** The browser-side upload checks: the file-name predicates and the
    sanitiser, the per-file validation, the magic-byte content check and the
    upload driver that runs them. */
module FileSecurity {
  import opened Optional
  import opened JsString
  import opened JsArray

  const MaxFileSize: int := 10 * 1024 * 1024
  const MaxFiles: nat := 5
  const MaxNameLength: nat := 255

  const ImageTypes: seq<string> := ["image/jpeg", "image/jpg", "image/png", "image/gif", "image/webp"]
  const DocumentTypes: seq<string> := ["application/pdf", "application/msword",
    "application/vnd.openxmlformats-officedocument.wordprocessingml.document"]
  const ArchiveTypes: seq<string> := ["application/zip"]

  const AllowedExtensions: seq<string> := [".jpg", ".jpeg", ".png", ".gif", ".webp", ".pdf", ".doc", ".docx", ".zip"]

  const BlockedExtensions: seq<string> := [
    ".exe", ".bat", ".cmd", ".com", ".pif", ".scr", ".vbs", ".js", ".jar",
    ".msi", ".app", ".deb", ".rpm", ".dmg", ".pkg", ".sh", ".bash",
    ".php", ".asp", ".aspx", ".jsp", ".cgi", ".pl", ".py", ".rb"]

  /** `getFileExtension`: the lower-cased text after the last dot, and empty
      when there is no dot or the only dot is the first character. Positions
      count characters; for the text they select this is the same as
      counting UTF-16 code units. */
  function FileExtension(name: string): string {
    var i := LastIndexOf(name, '.');
    if i >= 1 then Lower(name[i + 1..]) else ""
  }

  /** A non-empty extension leaves at least one character and the dot. */
  lemma ExtensionIsShorter(name: string)
    ensures |FileExtension(name)| == 0 || |FileExtension(name)| + 2 <= |name|
  {
  }

  /** The expression `getFileExtension` evaluates,
      `slice(((lastIndexOf('.') - 1) >>> 0) + 2)`, with the unsigned shift
      written out: it turns the positions -2 (no dot) and -1 (the only dot
      first) into huge numbers, so `slice` returns `''`. */
  function ExtensionByShift(name: string): string {
    Lower(SliceFrom(name, (LastIndexOf(name, '.') - 1) % 0x1_0000_0000 + 2))
  }

  /** For any name of a length a JavaScript string can have here, the shift
      expression selects exactly the text after the last dot. */
  lemma ShiftSelectsTextAfterLastDot(name: string)
    requires |name| <= 0x1_0000_0000
    ensures ExtensionByShift(name) == FileExtension(name)
  {
    var i := LastIndexOf(name, '.');
    ExtensionStart(i, |name|);
    var rest := SliceFrom(name, (i - 1) % 0x1_0000_0000 + 2);
    if i >= 1 {
      assert rest == name[i + 1..];
    } else {
      assert rest == [];
      assert |Lower(rest)| == 0;
    }
  }

  /** Where the shift expression starts slicing: just after the dot when the
      dot is not the first character, and past the end otherwise. */
  lemma ExtensionStart(i: int, n: nat)
    requires -1 <= i < n || i == -1
    ensures n <= 0x1_0000_0000 && i >= 1 ==> (i - 1) % 0x1_0000_0000 + 2 == i + 1
    ensures n <= 0x1_0000_0000 && i < 1 ==> (i - 1) % 0x1_0000_0000 + 2 >= n
  {
    if i == 0 {
      assert (i - 1) % 0x1_0000_0000 == 0x1_0000_0000 - 1;
    } else if i == -1 {
      assert (i - 1) % 0x1_0000_0000 == 0x1_0000_0000 - 2;
    }
  }

  /** The name has no dot, or its only dot is the first character. */
  lemma FileExtensionEmpty(name: string)
    ensures FileExtension(name) == "" <==> LastIndexOf(name, '.') < 1 || LastIndexOf(name, '.') == |name| - 1
  {
    var i := LastIndexOf(name, '.');
    if i >= 1 {
      assert |FileExtension(name)| == |name| - (i + 1);
    }
  }

  /** `ext.startsWith('.') ? ext : '.' + ext`. */
  function Dotted(ext: string): string {
    if StartsWith(ext, ".") then ext else "." + ext
  }

  /** `isExtensionAllowed`: blocked extensions are refused, and otherwise the
      allow list decides. */
  predicate IsExtensionAllowed(extension: string) {
    var ext := Dotted(extension);
    if ext in BlockedExtensions then false else ext in AllowedExtensions
  }

  /** The two lists share no entry, so the block list never changes the
      answer of the allow list. */
  lemma BlockListIsRedundant(extension: string)
    ensures IsExtensionAllowed(extension) <==> Dotted(extension) in AllowedExtensions
  {
    var ext := Dotted(extension);
    if ext in AllowedExtensions {
      AllowedIsNotBlocked(ext);
    }
  }

  /** No allowed extension is on the block list. */
  lemma AllowedIsNotBlocked(ext: string)
    requires ext in AllowedExtensions
    ensures ext !in BlockedExtensions
  {
    var i :| 0 <= i < |AllowedExtensions| && AllowedExtensions[i] == ext;
    if i < 3 {
      ImageExtensionsAreNotBlocked(ext);
    } else if i < 6 {
      MixedExtensionsAreNotBlocked(ext);
    } else {
      OfficeExtensionsAreNotBlocked(ext);
    }
  }

  lemma ImageExtensionsAreNotBlocked(ext: string)
    requires ext == ".jpg" || ext == ".jpeg" || ext == ".png"
    ensures ext !in BlockedExtensions
  {
  }

  lemma MixedExtensionsAreNotBlocked(ext: string)
    requires ext == ".gif" || ext == ".webp" || ext == ".pdf"
    ensures ext !in BlockedExtensions
  {
  }

  lemma OfficeExtensionsAreNotBlocked(ext: string)
    requires ext == ".doc" || ext == ".docx" || ext == ".zip"
    ensures ext !in BlockedExtensions
  {
  }

  /** `isMimeTypeAllowed`: membership in the three type lists together. */
  predicate IsMimeTypeAllowed(mimeType: string) {
    mimeType in ImageTypes + DocumentTypes + ArchiveTypes
  }

  /** The joined list allows exactly the types of its three parts. */
  lemma MimeTypeInSomeList(mimeType: string)
    ensures IsMimeTypeAllowed(mimeType) <==>
      mimeType in ImageTypes || mimeType in DocumentTypes || mimeType in ArchiveTypes
  {
  }

  /** The reference meaning of `hasDoubleExtension`: at least three dot
      parts, and some part before the last is, lower-cased and dotted, a
      blocked extension. */
  predicate DoubleExtension(filename: string) {
    var parts := Split(filename, '.');
    |parts| > 2 && exists i :: 0 <= i < |parts| - 1 && IsBlockedPart(parts[i])
  }

  /** A dot part that, lower-cased and dotted, is a blocked extension. */
  predicate IsBlockedPart(part: string) {
    "." + Lower(part) in BlockedExtensions
  }

  /** `hasDoubleExtension`, with its loop. */
  method HasDoubleExtension(filename: string) returns (found: bool)
    ensures found <==> DoubleExtension(filename)
  {
    var parts := Split(filename, '.');
    if |parts| > 2 {
      var i := 0;
      while i < |parts| - 1
        invariant 0 <= i <= |parts| - 1
        invariant forall j :: 0 <= j < i ==> !IsBlockedPart(parts[j])
      {
        if IsBlockedPart(parts[i]) {
          return true;
        }
        i := i + 1;
      }
    }
    return false;
  }

  /** `hasNullBytes`. */
  predicate HasNullBytes(filename: string) {
    Contains(filename, "\0") || Contains(filename, "%00")
  }

  const TraversalPatterns: seq<string> := ["../", "..\\", "./", ".\\", "%2e%2e", "%252e%252e"]

  /** `hasPathTraversal`: some pattern occurs in the lower-cased name. */
  predicate HasPathTraversal(filename: string) {
    var l := Lower(filename);
    Contains(l, TraversalPatterns[0]) || Contains(l, TraversalPatterns[1]) || Contains(l, TraversalPatterns[2]) ||
    Contains(l, TraversalPatterns[3]) || Contains(l, TraversalPatterns[4]) || Contains(l, TraversalPatterns[5])
  }

  /** A name with no dot holds no traversal pattern but the percent-encoded
      ones; in particular a plain word never trips the check. */
  lemma TraversalIsSomePattern(filename: string)
    ensures HasPathTraversal(filename) <==>
      exists i :: 0 <= i < |TraversalPatterns| && Contains(Lower(filename), TraversalPatterns[i])
  {
    var l := Lower(filename);
    if HasPathTraversal(filename) {
      if Contains(l, TraversalPatterns[0]) {
        assert Contains(l, TraversalPatterns[0]);
      } else if Contains(l, TraversalPatterns[1]) {
        assert Contains(l, TraversalPatterns[1]);
      } else if Contains(l, TraversalPatterns[2]) {
        assert Contains(l, TraversalPatterns[2]);
      } else if Contains(l, TraversalPatterns[3]) {
        assert Contains(l, TraversalPatterns[3]);
      } else if Contains(l, TraversalPatterns[4]) {
        assert Contains(l, TraversalPatterns[4]);
      } else {
        assert Contains(l, TraversalPatterns[5]);
      }
    }
  }

  lemma DotFreeNamesAreNotTraversal(filename: string)
    requires '.' !in filename && '%' !in filename
    ensures !HasPathTraversal(filename)
  {
    var l := Lower(filename);
    TraversalIsSomePattern(filename);
    assert '.' !in l && '%' !in l;
    forall i | 0 <= i < |TraversalPatterns| ensures !Contains(l, TraversalPatterns[i]) {
      var p := TraversalPatterns[i];
      if Contains(l, p) {
        FirstCharacterOccurs(l, p);
      }
    }
  }

  /** Text that contains a pattern contains the pattern's first character. */
  lemma FirstCharacterOccurs(s: string, p: string)
    requires |p| > 0 && Contains(s, p)
    ensures p[0] in s
  {
    ContainsIsFound(s, p);
    var k := Find(s, p);
    assert s[k] == s[k..k + |p|][0];
  }

  // ----- The sanitiser -----

  /** The characters the regular expression `.` does not match. */
  predicate IsLineTerminator(c: char) {
    c == '\n' || c == '\r' || c == '\U{2028}' || c == '\U{2029}'
  }

  /** The position of the first line terminator, or the length. */
  function LineEnd(s: string): (n: nat)
    ensures n <= |s|
    ensures forall k :: 0 <= k < n ==> !IsLineTerminator(s[k])
    ensures n < |s| ==> IsLineTerminator(s[n])
  {
    if s == [] || IsLineTerminator(s[0]) then 0 else 1 + LineEnd(s[1..])
  }

  /** The last slash or backslash before position `n`, or -1. */
  function LastSeparatorBefore(s: string, n: nat): (k: int)
    requires n <= |s|
    ensures -1 <= k < n
    ensures k >= 0 ==> s[k] == '/' || s[k] == '\\'
    ensures forall j :: k < j < n ==> s[j] != '/' && s[j] != '\\'
  {
    if n == 0 then -1
    else if s[n - 1] == '/' || s[n - 1] == '\\' then n - 1
    else LastSeparatorBefore(s, n - 1)
  }

  /** The first line of `s[j..]` ends where the first line of `s` ends. */
  lemma {:induction false} LineEndOfSuffix(s: string, j: nat)
    requires j <= LineEnd(s)
    ensures LineEnd(s[j..]) == LineEnd(s) - j
  {
    if j > 0 {
      assert s[j..] == s[1..][j - 1..];
      LineEndOfSuffix(s[1..], j - 1);
    }
  }

  /** Step 1, `replace(/^.*[\\\/]/, '')`: the greedy match runs to the last
      separator of the first line. What is left is a suffix of the name with
      no separator on its first line, and a name with none there is kept;
      when something is cut, the cut falls just after a separator of the
      first line, so it is the last one there. */
  function StripPath(s: string): (r: string)
    ensures |r| <= |s| && r == s[|s| - |r|..]
    ensures forall k :: 0 <= k < LineEnd(r) ==> r[k] != '/' && r[k] != '\\'
    ensures (forall k :: 0 <= k < LineEnd(s) ==> s[k] != '/' && s[k] != '\\') ==> r == s
    ensures |r| < |s| ==> |s| - |r| - 1 < LineEnd(s) && (s[|s| - |r| - 1] == '/' || s[|s| - |r| - 1] == '\\')
  {
    var k := LastSeparatorBefore(s, LineEnd(s));
    LineEndOfSuffix(s, k + 1);
    s[k + 1..]
  }

  /** Stripping the path a second time removes nothing more. */
  lemma StripPathIsIdempotent(s: string)
    ensures StripPath(StripPath(s)) == StripPath(s)
  {
  }

  predicate IsSafe(c: char) {
    'a' <= c <= 'z' || 'A' <= c <= 'Z' || '0' <= c <= '9' || c == '.' || c == '_' || c == '-'
  }

  predicate AllSafe(s: string) {
    forall k :: 0 <= k < |s| ==> IsSafe(s[k])
  }

  /** Step 2, `replace(/[^a-zA-Z0-9._-]/g, '_')`: the expression works on
      UTF-16 code units, so a character outside the Basic Multilingual Plane
      becomes two underscores. */
  function ReplaceUnsafe(s: string): (r: string)
    ensures AllSafe(r)
    ensures |r| == JsLength(s)
    ensures AllSafe(s) ==> r == s
  {
    if s == [] then []
    else
      var head := if IsSafe(s[0]) then [s[0]] else if s[0] as int < 0x10000 then "_" else "__";
      head + ReplaceUnsafe(s[1..])
  }

  /** No dot directly follows another. */
  predicate NoDoubleDots(s: string)
    decreases |s|
  {
    |s| < 2 || (!(s[0] == '.' && s[1] == '.') && NoDoubleDots(s[1..]))
  }

  /** The text with every dot removed. */
  function WithoutDots(s: string): string {
    if s == [] then [] else (if s[0] == '.' then [] else [s[0]]) + WithoutDots(s[1..])
  }

  /** Step 3, `replace(/\.{2,}/g, '.')`: every run of dots becomes one dot.
      Only dots are removed, none remain side by side, and a name without
      a run of dots is kept. */
  function CollapseDots(s: string): (r: string)
    ensures |r| <= |s|
    ensures AllSafe(s) ==> AllSafe(r)
    ensures NoDoubleDots(r)
    ensures WithoutDots(r) == WithoutDots(s)
    ensures NoDoubleDots(s) ==> r == s
    ensures |s| > 0 ==> |r| > 0 && r[0] == s[0]
  {
    if |s| < 2 then s
    else if s[0] == '.' && s[1] == '.' then CollapseDots(s[1..])
    else
      var t := CollapseDots(s[1..]);
      assert ([s[0]] + t)[1..] == t;
      assert s == [s[0]] + s[1..];
      [s[0]] + t
  }

  lemma LowerKeepsSafe(s: string)
    requires AllSafe(s)
    ensures AllSafe(Lower(s))
  {
  }

  /** Step 4 as written: a name over 255 characters keeps its first
      `255 - ext.length - 1` characters and gets `'.' + ext` back. After
      step 2 every character is one code unit, so `length` is `|s|`. The
      slice end is negative when the extension has 255 characters or more,
      and then `slice` counts from the end: the name grows by 255. */
  function LimitLengthAsWritten(s: string): (r: string)
    ensures AllSafe(s) ==> AllSafe(r)
    ensures |s| <= MaxNameLength ==> r == s
    ensures |s| > MaxNameLength && |FileExtension(s)| < MaxNameLength ==> |r| == MaxNameLength
    ensures |s| > MaxNameLength && |FileExtension(s)| >= MaxNameLength ==> |r| == |s| + MaxNameLength
  {
    if |s| > MaxNameLength then
      ExtensionIsSafe(s);
      ExtensionIsShorter(s);
      CutAndExtend(s, FileExtension(s))
    else s
  }

  /** `${filename.slice(0, 255 - ext.length - 1)}.${ext}` for an extension
      that leaves at least one character and the dot. */
  function CutAndExtend(s: string, ext: string): (r: string)
    requires |ext| + 2 <= |s| || ext == []
    requires |s| > MaxNameLength
    ensures AllSafe(s) && AllSafe(ext) ==> AllSafe(r)
    ensures |ext| < MaxNameLength ==> |r| == MaxNameLength
    ensures |ext| >= MaxNameLength ==> |r| == |s| + MaxNameLength
  {
    var end := MaxNameLength as int - |ext| - 1;
    SafeSlice(s, 0, end);
    SafeJoin(Slice(s, 0, end), ext);
    Slice(s, 0, end) + "." + ext
  }

  /** As written, the name `a.` followed by 300 letters `b`, 302 characters,
      comes out of "limit length" with 557. */
  lemma LongExtensionGrowsTheName()
    ensures var s := "a." + seq(300, _ => 'b'); |s| == 302 && |LimitLengthAsWritten(s)| == 557
  {
    var s := "a." + seq(300, _ => 'b');
    assert s[1] == '.';
    assert |FileExtension(s)| == 300;
  }

  /** Step 4 as intended: a long name is cut to exactly 255 characters. When
      the extension fits it keeps the start of the name and `'.'` followed by
      the extension; otherwise it is the dot and the start of the extension. */
  function LimitLength(s: string): (r: string)
    ensures AllSafe(s) ==> AllSafe(r)
    ensures |s| <= MaxNameLength ==> r == s
    ensures |s| > MaxNameLength ==> |r| == MaxNameLength && '.' in r
  {
    if |s| > MaxNameLength then
      ExtensionIsSafe(s);
      var ext := FileExtension(s);
      if |ext| < MaxNameLength then KeepExtension(s, ext) else DotAndExtensionStart(ext)
    else s
  }

  /** The start of a long name, a dot and the extension, 255 characters. */
  function KeepExtension(s: string, ext: string): (r: string)
    requires |s| > MaxNameLength && |ext| < MaxNameLength
    ensures AllSafe(s) && AllSafe(ext) ==> AllSafe(r)
    ensures |r| == MaxNameLength && '.' in r
  {
    var stem := s[..MaxNameLength - 1 - |ext|];
    SafePrefix(s, MaxNameLength - 1 - |ext|);
    SafeJoin(stem, ext);
    assert (stem + ("." + ext))[|stem|] == '.';
    stem + ("." + ext)
  }

  /** A dot and the first 254 characters of an over-long extension. */
  function DotAndExtensionStart(ext: string): (r: string)
    requires |ext| >= MaxNameLength
    ensures AllSafe(ext) ==> AllSafe(r)
    ensures |r| == MaxNameLength && '.' in r
  {
    SafePrefix(ext, MaxNameLength - 1);
    SafeConcat(".", ext[..MaxNameLength - 1]);
    assert ("." + ext[..MaxNameLength - 1])[0] == '.';
    "." + ext[..MaxNameLength - 1]
  }

  /** A long name whose extension fits keeps its start and its extension. */
  lemma LimitLengthKeepsTheExtension(s: string)
    requires |s| > MaxNameLength && |FileExtension(s)| < MaxNameLength
    ensures EndsWith(LimitLength(s), "." + FileExtension(s))
    ensures LimitLength(s)[..MaxNameLength - 1 - |FileExtension(s)|] == s[..MaxNameLength - 1 - |FileExtension(s)|]
  {
    KeepExtensionEnds(s, FileExtension(s));
  }

  lemma KeepExtensionEnds(s: string, ext: string)
    requires |s| > MaxNameLength && |ext| < MaxNameLength
    ensures EndsWith(KeepExtension(s, ext), "." + ext)
    ensures KeepExtension(s, ext)[..MaxNameLength - 1 - |ext|] == s[..MaxNameLength - 1 - |ext|]
  {
    var stem := s[..MaxNameLength - 1 - |ext|];
    assert (stem + ("." + ext))[|stem|..] == "." + ext;
    assert (stem + ("." + ext))[..|stem|] == stem;
  }

  /** The two versions of step 4 differ only for extensions of 255 or more
      characters. */
  lemma LimitLengthVersionsAgree(s: string)
    requires |FileExtension(s)| < MaxNameLength
    ensures LimitLength(s) == LimitLengthAsWritten(s)
  {
    if |s| > MaxNameLength {
      ExtensionIsShorter(s);
      CutKeepsTheExtension(s, FileExtension(s));
    }
  }

  lemma CutKeepsTheExtension(s: string, ext: string)
    requires |s| > MaxNameLength && |ext| < MaxNameLength
    ensures CutAndExtend(s, ext) == KeepExtension(s, ext)
  {
    var stem := s[..MaxNameLength - 1 - |ext|];
    assert Slice(s, 0, MaxNameLength as int - |ext| - 1) == stem;
    AppendAssociates(stem, ".", ext);
  }

  /** The extension of a harmless name is harmless. */
  lemma ExtensionIsSafe(s: string)
    ensures AllSafe(s) ==> AllSafe(FileExtension(s))
  {
    var i := LastIndexOf(s, '.');
    if i >= 1 && AllSafe(s) {
      assert AllSafe(s[i + 1..]);
      LowerKeepsSafe(s[i + 1..]);
    }
  }

  /** Steps 1 to 3. */
  function Collapsed(filename: string): (r: string)
    ensures AllSafe(r) && NoDoubleDots(r)
  {
    CollapseDots(ReplaceUnsafe(StripPath(filename)))
  }

  /** Steps 1 to 4, with step 4 as intended. */
  function Cleaned(filename: string): (r: string)
    ensures AllSafe(r)
    ensures |r| <= MaxNameLength
  {
    LimitLength(Collapsed(filename))
  }

  /** Steps 1 to 4 as written. */
  function CleanedAsWritten(filename: string): (r: string)
    ensures AllSafe(r)
  {
    LimitLengthAsWritten(Collapsed(filename))
  }

  /** A shortened name always has a dot, so a dotless cleaned name was never
      shortened. */
  lemma DotlessNamesAreShort(filename: string)
    ensures '.' !in Cleaned(filename) ==> Cleaned(filename) == Collapsed(filename)
  {
  }

  /** Step 5 as written: `name = slice(0, lastIndexOf('.'))`. Without a dot
      that is `slice(0, -1)`, which drops the last character. */
  function AddTimestampAsWritten(s: string, timestamp: nat): string {
    Slice(s, 0, LastIndexOf(s, '.')) + "_" + Decimal(timestamp) + "." + FileExtension(s)
  }

  /** `sanitizeFilename` as written. */
  function SanitizeFilenameAsWritten(filename: string, timestamp: nat): string {
    AddTimestampAsWritten(CleanedAsWritten(filename), timestamp)
  }

  /** A name without a dot has no run of dots. */
  lemma {:induction false} DotlessHasNoDoubleDots(s: string)
    requires '.' !in s
    ensures NoDoubleDots(s)
  {
    if |s| >= 2 {
      assert s[0] in s;
      assert forall c :: c in s[1..] ==> c in s;
      DotlessHasNoDoubleDots(s[1..]);
    }
  }

  /** A name of safe characters has no path to strip. */
  lemma StripPathOfSafeName(s: string)
    requires AllSafe(s)
    ensures StripPath(s) == s
  {
  }

  /** A name of at most 255 safe characters without a run of dots is left as
      it is by steps 1 to 4, in both versions. */
  lemma PlainNameIsClean(s: string)
    requires AllSafe(s) && NoDoubleDots(s) && |s| <= MaxNameLength
    ensures Cleaned(s) == s && CleanedAsWritten(s) == s
  {
    PlainNameIsCleaned(s);
    PlainNameIsCleanedAsWritten(s);
  }

  lemma PlainNameIsCleaned(s: string)
    requires AllSafe(s) && NoDoubleDots(s) && |s| <= MaxNameLength
    ensures Cleaned(s) == s
  {
    CollapsedOfPlainName(s);
    ShortNamesAreKept(s);
  }

  lemma PlainNameIsCleanedAsWritten(s: string)
    requires AllSafe(s) && NoDoubleDots(s) && |s| <= MaxNameLength
    ensures CleanedAsWritten(s) == s
  {
    CollapsedOfPlainName(s);
    ShortNamesAreKept(s);
  }

  lemma ShortNamesAreKept(s: string)
    requires |s| <= MaxNameLength
    ensures LimitLength(s) == s && LimitLengthAsWritten(s) == s
  {
  }

  lemma CollapsedOfPlainName(s: string)
    requires AllSafe(s) && NoDoubleDots(s)
    ensures Collapsed(s) == s
  {
    StripPathOfSafeName(s);
    assert ReplaceUnsafe(s) == s;
  }

  /** As written, a plain name without an extension loses its last
      character: `README` becomes `READM_<timestamp>.`. */
  lemma SanitizeDropsLastCharacter(s: string, timestamp: nat)
    requires AllSafe(s) && '.' !in s && 0 < |s| <= MaxNameLength
    ensures SanitizeFilenameAsWritten(s, timestamp) == s[..|s| - 1] + "_" + Decimal(timestamp) + "."
    ensures SanitizeFilenameAsWritten(s, timestamp) != SanitizeFilename(s, timestamp)
  {
    DotlessHasNoDoubleDots(s);
    PlainNameIsClean(s);
    StampOfDotless(s, timestamp);
    assert Slice(s, 0, -1) == s[..|s| - 1];
  }

  /** As written, a name whose only dot is its first character loses all of
      it: `.jpg`, what is left of `x/.jpg`, becomes `_<timestamp>.`. */
  lemma SanitizeDropsDotfileStem(s: string, timestamp: nat)
    requires AllSafe(s) && 1 < |s| <= MaxNameLength && s[0] == '.' && '.' !in s[1..]
    ensures SanitizeFilenameAsWritten(s, timestamp) == "_" + Decimal(timestamp) + "."
    ensures SanitizeFilename(s, timestamp) == s + "_" + Decimal(timestamp) + "."
  {
    var rest := s[1..];
    DotlessHasNoDoubleDots(rest);
    assert s[1] == rest[0];
    assert NoDoubleDots(s);
    PlainNameIsClean(s);
    StampOfDotfile(s, timestamp);
  }

  /** Both versions of step 5 on a name without a dot. */
  lemma StampOfDotless(s: string, timestamp: nat)
    requires '.' !in s
    ensures AddTimestamp(s, timestamp) == s + "_" + Decimal(timestamp) + "."
    ensures AddTimestampAsWritten(s, timestamp) == Slice(s, 0, -1) + "_" + Decimal(timestamp) + "."
  {
    assert LastIndexOf(s, '.') == -1;
    var d := Decimal(timestamp);
    assert AddTimestamp(s, timestamp) == s + ("_" + d + "." + "");
    assert "_" + d + "." + "" == "_" + d + ".";
    AppendAssociates(s, "_" + d, ".");
    AppendAssociates(s, "_", d);
    assert AddTimestampAsWritten(s, timestamp) == Slice(s, 0, -1) + "_" + d + "." + "";
  }

  /** Both versions of step 5 on a name whose only dot is first. */
  lemma StampOfDotfile(s: string, timestamp: nat)
    requires |s| > 0 && s[0] == '.' && '.' !in s[1..]
    ensures AddTimestampAsWritten(s, timestamp) == "_" + Decimal(timestamp) + "."
    ensures AddTimestamp(s, timestamp) == s + "_" + Decimal(timestamp) + "."
  {
    OnlyLeadingDot(s);
    var d := Decimal(timestamp);
    assert AddTimestampAsWritten(s, timestamp) == [] + "_" + d + "." + "";
    assert AddTimestamp(s, timestamp) == s + ("_" + d + "." + "");
    AppendAssociates(s, "_" + d, ".");
    AppendAssociates(s, "_", d);
  }

  /** A name whose only dot is its first character. */
  lemma OnlyLeadingDot(s: string)
    requires |s| > 0 && s[0] == '.' && '.' !in s[1..]
    ensures LastIndexOf(s, '.') == 0 && FileExtension(s) == ""
  {
  }

  /** Step 5 as intended: the stem is the text before the extension's dot,
      and the whole name when there is no such dot. */
  function AddTimestamp(s: string, timestamp: nat): string {
    var dot := LastIndexOf(s, '.');
    var stem := if dot >= 1 then s[..dot] else s;
    stem + ("_" + Decimal(timestamp) + "." + FileExtension(s))
  }

  /** The stamped name ends with `_<timestamp>.<extension>`. */
  lemma AddTimestampEnds(s: string, timestamp: nat)
    ensures EndsWith(AddTimestamp(s, timestamp), "_" + Decimal(timestamp) + "." + FileExtension(s))
  {
    var dot := LastIndexOf(s, '.');
    var stem := if dot >= 1 then s[..dot] else s;
    var suffix := "_" + Decimal(timestamp) + "." + FileExtension(s);
    assert AddTimestamp(s, timestamp) == stem + suffix;
    assert (stem + suffix)[|stem|..] == suffix;
  }

  /** As written the stamped name also ends with `_<timestamp>.<extension>`. */
  lemma AddTimestampAsWrittenEnds(s: string, timestamp: nat)
    ensures EndsWith(AddTimestampAsWritten(s, timestamp), "_" + Decimal(timestamp) + "." + FileExtension(s))
  {
    var stem := Slice(s, 0, LastIndexOf(s, '.'));
    var suffix := "_" + Decimal(timestamp) + "." + FileExtension(s);
    AppendAssociates(stem, "_", Decimal(timestamp));
    AppendAssociates(stem, "_" + Decimal(timestamp), ".");
    AppendAssociates(stem, "_" + Decimal(timestamp) + ".", FileExtension(s));
    assert AddTimestampAsWritten(s, timestamp) == stem + suffix;
    assert (stem + suffix)[|stem|..] == suffix;
  }

  /** The stamped name stays harmless when the name and its extension are. */
  lemma AddTimestampKeepsSafe(s: string, timestamp: nat)
    requires AllSafe(s) && AllSafe(FileExtension(s))
    ensures AllSafe(AddTimestamp(s, timestamp))
  {
    var dot := LastIndexOf(s, '.');
    var stem := if dot >= 1 then s[..dot] else s;
    var stamp := "_" + Decimal(timestamp);
    SafeConcat(stamp, ".");
    SafeConcat(stamp + ".", FileExtension(s));
    assert AllSafe(stem);
    SafeConcat(stem, stamp + "." + FileExtension(s));
  }

  /** As written, the stamped name stays harmless too: its stem is a prefix
      of the name. */
  lemma AddTimestampAsWrittenKeepsSafe(s: string, timestamp: nat)
    requires AllSafe(s) && AllSafe(FileExtension(s))
    ensures AllSafe(AddTimestampAsWritten(s, timestamp))
  {
    SafeSlice(s, 0, LastIndexOf(s, '.'));
    SafeStamp(Slice(s, 0, LastIndexOf(s, '.')), Decimal(timestamp), FileExtension(s));
  }

  /** Safe parts joined around `_` and `.` make a safe name. */
  lemma SafeStamp(stem: string, digits: string, ext: string)
    requires AllSafe(stem) && AllSafe(ext)
    requires forall k :: 0 <= k < |digits| ==> IsDigit(digits[k])
    ensures AllSafe(stem + "_" + digits + "." + ext)
  {
    SafeConcat(stem, "_");
    SafeConcat(stem + "_", digits);
    SafeConcat(stem + "_" + digits, ".");
    SafeConcat(stem + "_" + digits + ".", ext);
  }

  /** A safe name holds no path separator. */
  lemma SafeHasNoSeparator(s: string)
    ensures AllSafe(s) ==> '/' !in s && '\\' !in s
  {
    if AllSafe(s) {
      assert forall k :: 0 <= k < |s| ==> s[k] != '/' && s[k] != '\\';
    }
  }

  lemma SafeConcat(a: string, b: string)
    ensures AllSafe(a) && AllSafe(b) ==> AllSafe(a + b)
  {
  }

  lemma SafePrefix(s: string, n: nat)
    requires n <= |s|
    ensures AllSafe(s) ==> AllSafe(s[..n])
  {
  }

  /** A safe stem and a safe extension joined by a dot make a safe name. */
  lemma SafeJoin(stem: string, ext: string)
    ensures AllSafe(stem) && AllSafe(ext) ==> AllSafe(stem + "." + ext) && AllSafe(stem + ("." + ext))
  {
    SafeConcat(stem, ".");
    SafeConcat(stem + ".", ext);
    SafeConcat(".", ext);
    SafeConcat(stem, "." + ext);
  }

  lemma SafeSlice(s: string, start: int, end: int)
    ensures AllSafe(s) ==> AllSafe(Slice(s, start, end))
  {
  }

  /** `sanitizeFilename` as intended: step 4 keeps the length limit and
      step 5 keeps the stem intact. */
  function SanitizeFilename(filename: string, timestamp: nat): string {
    AddTimestamp(Cleaned(filename), timestamp)
  }

  /** `sanitizeFilename` with its reassignments, as intended. */
  method SanitizeFilenameInSteps(filename: string, timestamp: nat) returns (result: string)
    ensures result == SanitizeFilename(filename, timestamp)
  {
    var name := CleanInSteps(filename);
    var ext := FileExtension(name);
    var dot := LastIndexOf(name, '.');
    var stem := if dot >= 1 then name[..dot] else name;
    result := stem + ("_" + Decimal(timestamp) + "." + ext);
  }

  /** Steps 1 to 4 of `sanitizeFilename`, one reassignment each, with step 4
      as intended. */
  method CleanInSteps(filename: string) returns (name: string)
    ensures name == Cleaned(filename)
  {
    name := StripPath(filename);
    name := ReplaceUnsafe(name);
    name := CollapseDots(name);
    ghost var collapsed := name;
    if |name| > MaxNameLength {
      var ext := FileExtension(name);
      if |ext| < MaxNameLength {
        name := name[..MaxNameLength - 1 - |ext|] + ("." + ext);
      } else {
        name := "." + ext[..MaxNameLength - 1];
      }
    }
    assert name == LimitLength(collapsed);
  }

  /** The sanitised name is made only of letters, digits, `.`, `_` and `-`,
      so it has no path separator, and it ends with `_<timestamp>.<extension>`. */
  lemma SanitizedNameIsSafe(filename: string, timestamp: nat)
    ensures AllSafe(SanitizeFilename(filename, timestamp))
    ensures '/' !in SanitizeFilename(filename, timestamp) && '\\' !in SanitizeFilename(filename, timestamp)
    ensures EndsWith(SanitizeFilename(filename, timestamp),
                     "_" + Decimal(timestamp) + "." + FileExtension(Cleaned(filename)))
  {
    var s := Cleaned(filename);
    ExtensionIsSafe(s);
    AddTimestampEnds(s, timestamp);
    AddTimestampKeepsSafe(s, timestamp);
    SafeHasNoSeparator(AddTimestamp(s, timestamp));
  }

  /** The same holds of `sanitizeFilename` as written. */
  lemma SanitizedAsWrittenIsSafe(filename: string, timestamp: nat)
    ensures AllSafe(SanitizeFilenameAsWritten(filename, timestamp))
    ensures '/' !in SanitizeFilenameAsWritten(filename, timestamp) && '\\' !in SanitizeFilenameAsWritten(filename, timestamp)
    ensures EndsWith(SanitizeFilenameAsWritten(filename, timestamp),
                     "_" + Decimal(timestamp) + "." + FileExtension(CleanedAsWritten(filename)))
  {
    var s := CleanedAsWritten(filename);
    ExtensionIsSafe(s);
    AddTimestampAsWrittenEnds(s, timestamp);
    AddTimestampAsWrittenKeepsSafe(s, timestamp);
    SafeHasNoSeparator(AddTimestampAsWritten(s, timestamp));
  }

  /** A cleaned name without any dot keeps every character. */
  lemma SanitizeKeepsDotlessNames(filename: string, timestamp: nat)
    requires '.' !in Cleaned(filename)
    ensures SanitizeFilename(filename, timestamp) == Cleaned(filename) + "_" + Decimal(timestamp) + "."
  {
    StampOfDotless(Cleaned(filename), timestamp);
  }

  // ----- Per-file validation -----

  /** A `File` as the validator reads it. */
  datatype FileInfo = FileInfo(name: string, size: int, mimeType: string)

  datatype FileError =
    | NoFile
    | TooLarge
    | TypeNotAllowed(extension: string)
    | SuspiciousDoubleExtension
    | MimeTypeNotAllowed(mimeType: string)
    | InvalidCharacters
    | PathTraversal

  /** The message `validateFile` pushes for each error. */
  function Message(e: FileError): string {
    match e
    case NoFile => "No file provided"
    case TooLarge => "File size exceeds maximum allowed (10MB)"
    case TypeNotAllowed(ext) => "File type not allowed: " + ext
    case SuspiciousDoubleExtension => "File has suspicious double extension"
    case MimeTypeNotAllowed(t) => "MIME type not allowed: " + t
    case InvalidCharacters => "Filename contains invalid characters"
    case PathTraversal => "Filename contains path traversal attempt"
  }

  /** The outcomes of the six checks on a present file, with the extension
      and the type that the messages quote. */
  datatype Checks = Checks(sizeOk: bool, extension: string, extensionOk: bool, plain: bool,
                           mimeType: string, mimeOk: bool, printable: bool, contained: bool)

  function ChecksOf(f: FileInfo): Checks {
    var extension := FileExtension(f.name);
    Checks(f.size <= MaxFileSize, extension, IsExtensionAllowed(extension), !DoubleExtension(f.name),
           f.mimeType, IsMimeTypeAllowed(f.mimeType), !HasNullBytes(f.name), !HasPathTraversal(f.name))
  }

  /** The errors of the failed checks, in the order they are made. */
  function ErrorsFrom(c: Checks): (errors: seq<FileError>)
    ensures |errors| <= 6
    ensures |errors| == 0 <==>
      c.sizeOk && c.extensionOk && c.plain && c.mimeOk && c.printable && c.contained
  {
    Failing(c.sizeOk, TooLarge) +
    Failing(c.extensionOk, TypeNotAllowed(c.extension)) +
    Failing(c.plain, SuspiciousDoubleExtension) +
    Failing(c.mimeOk, MimeTypeNotAllowed(c.mimeType)) +
    Failing(c.printable, InvalidCharacters) +
    Failing(c.contained, PathTraversal)
  }

  /** The errors `validateFile` reports: a missing file is one error. */
  function ExpectedErrors(file: Option<FileInfo>): (errors: seq<FileError>)
    ensures file == None ==> errors == [NoFile]
    ensures file.Some? ==> |errors| <= 6
  {
    match file
    case None => [NoFile]
    case Some(f) => ErrorsFrom(ChecksOf(f))
  }

  /** A present file is valid exactly when it passes all six checks. */
  lemma ValidMeansEveryCheckPasses(f: FileInfo)
    ensures ExpectedErrors(Some(f)) == [] <==>
      f.size <= MaxFileSize && IsExtensionAllowed(FileExtension(f.name)) && !DoubleExtension(f.name) &&
      IsMimeTypeAllowed(f.mimeType) && !HasNullBytes(f.name) && !HasPathTraversal(f.name)
  {
  }

  /** The checks of `validateFile`, each made by its helper. */
  method RunChecks(f: FileInfo) returns (c: Checks)
    ensures c == ChecksOf(f)
  {
    var extension := FileExtension(f.name);
    var double := HasDoubleExtension(f.name);
    c := Checks(f.size <= MaxFileSize, extension, IsExtensionAllowed(extension), !double,
                f.mimeType, IsMimeTypeAllowed(f.mimeType), !HasNullBytes(f.name), !HasPathTraversal(f.name));
  }

  /** The pushes of `validateFile`: one error for each failed check. */
  method ReportErrors(c: Checks) returns (errors: seq<FileError>)
    ensures errors == ErrorsFrom(c)
  {
    errors := [];
    if !c.sizeOk {
      errors := errors + [TooLarge];
    }
    ghost var e1 := errors;
    assert e1 == Failing(c.sizeOk, TooLarge);
    if !c.extensionOk {
      errors := errors + [TypeNotAllowed(c.extension)];
    }
    ghost var e2 := errors;
    assert e2 == e1 + Failing(c.extensionOk, TypeNotAllowed(c.extension));
    if !c.plain {
      errors := errors + [SuspiciousDoubleExtension];
    }
    ghost var e3 := errors;
    assert e3 == e2 + Failing(c.plain, SuspiciousDoubleExtension);
    if !c.mimeOk {
      errors := errors + [MimeTypeNotAllowed(c.mimeType)];
    }
    ghost var e4 := errors;
    assert e4 == e3 + Failing(c.mimeOk, MimeTypeNotAllowed(c.mimeType));
    if !c.printable {
      errors := errors + [InvalidCharacters];
    }
    ghost var e5 := errors;
    assert e5 == e4 + Failing(c.printable, InvalidCharacters);
    if !c.contained {
      errors := errors + [PathTraversal];
    }
  }

  /** `validateFile`: `valid` exactly when no error was pushed. */
  method ValidateFile(file: Option<FileInfo>) returns (valid: bool, errors: seq<FileError>)
    ensures errors == ExpectedErrors(file)
    ensures valid <==> errors == []
  {
    if file == None {
      return false, [NoFile];
    }
    var c := RunChecks(file.value);
    errors := ReportErrors(c);
    valid := |errors| == 0;
  }

  // ----- Content check -----

  type Byte = x: int | 0 <= x < 256

  function HexDigit(n: int): (c: char)
    requires 0 <= n < 16
  {
    "0123456789abcdef"[n]
  }

  /** `b.toString(16).padStart(2, '0')`. */
  function HexByte(b: Byte): (r: string)
    ensures |r| == 2
  {
    [HexDigit(b / 16), HexDigit(b % 16)]
  }

  /** The hexadecimal header of a list of bytes. */
  function Hex(bytes: seq<Byte>): (r: string)
    ensures |r| == 2 * |bytes|
  {
    if bytes == [] then "" else Hex(bytes[..|bytes| - 1]) + HexByte(bytes[|bytes| - 1])
  }

  /** The header loop of `validateFileContent` over the first four bytes. */
  method HexHeader(content: seq<Byte>) returns (header: string)
    ensures header == Header(content)
  {
    var arr := content[..if |content| < 4 then |content| else 4];
    header := "";
    for i := 0 to |arr|
      invariant header == Hex(arr[..i])
    {
      assert arr[..i + 1][..i] == arr[..i];
      header := header + HexByte(arr[i]);
    }
    assert arr[..|arr|] == arr;
  }

  const MagicBytes: map<string, string> := map[
    "ffd8ff" := "image/jpeg",
    "89504e47" := "image/png",
    "47494638" := "image/gif",
    "52494646" := "image/webp",
    "25504446" := "application/pdf",
    "504b0304" := "application/zip"]

  function Magic(key: string): (r: Option<string>)
    ensures r.Some? <==> key in MagicBytes
  {
    if key in MagicBytes then Some(MagicBytes[key]) else None
  }

  /** `magicBytes[header.slice(0, 8)] || magicBytes[header.slice(0, 6)]`: the
      eight-digit signature wins; the six-digit one is the fallback. */
  function DetectedType(header: string): (t: Option<string>)
    ensures Magic(Slice(header, 0, 8)).Some? ==> t == Magic(Slice(header, 0, 8))
    ensures Magic(Slice(header, 0, 8)).None? ==> t == Magic(Slice(header, 0, 6))
  {
    Or(Magic(Slice(header, 0, 8)), Magic(Slice(header, 0, 6)))
  }

  lemma HexSnoc(bytes: seq<Byte>, b: Byte)
    ensures Hex(bytes + [b]) == Hex(bytes) + HexByte(b)
  {
    assert (bytes + [b])[..|bytes|] == bytes;
  }

  lemma JpegHeader(fourth: Byte)
    ensures Hex([0xff, 0xd8, 0xff, fourth]) == "ffd8ff" + HexByte(fourth)
  {
    HexSnoc([], 0xff);
    HexSnoc([0xff], 0xd8);
    HexSnoc([0xff, 0xd8], 0xff);
    HexSnoc([0xff, 0xd8, 0xff], fourth);
    assert [0xff] == [] + [0xff];
    assert [0xff, 0xd8] == [0xff] + [0xd8];
    assert [0xff, 0xd8, 0xff] == [0xff, 0xd8] + [0xff];
    assert [0xff, 0xd8, 0xff, fourth] == [0xff, 0xd8, 0xff] + [fourth];
    assert Hex([0xff, 0xd8, 0xff]) == "ffd8ff";
  }

  /** A JPEG (`ff d8 ff`, any fourth byte) is recognised through the
      six-digit fallback: no eight-digit signature starts with `f`. */
  lemma JpegIsDetected(fourth: Byte)
    ensures DetectedType(Hex([0xff, 0xd8, 0xff, fourth])) == Some("image/jpeg")
  {
    JpegHeader(fourth);
    var h := Hex([0xff, 0xd8, 0xff, fourth]);
    assert Slice(h, 0, 6) == "ffd8ff";
    assert Slice(h, 0, 8) == h;
    assert h[0] == 'f' && |h| == 8;
    assert h !in MagicBytes;
  }

  /** The first (up to) four bytes of the content, in hexadecimal. */
  function Header(content: seq<Byte>): (h: string)
    ensures |h| <= 8
  {
    Hex(content[..if |content| < 4 then |content| else 4])
  }

  /** The content is valid exactly when a type is detected and it is the
      declared one. */
  predicate ContentMatches(content: seq<Byte>, declared: string) {
    DetectedType(Header(content)) == Some(declared)
  }

  // ----- The upload driver -----

  /** A file of the upload, with its first bytes. */
  datatype Upload = Upload(info: FileInfo, content: seq<Byte>)

  datatype UploadOutcome =
    | TooManyFiles
    | FileRejected(name: string, errors: seq<FileError>)
    | ContentMismatch(name: string, declared: string, detected: Option<string>)
    | Ready(names: seq<string>)

  /** The new name of every file, in order. */
  function SanitizedNames(files: seq<Upload>, timestamp: nat): (names: seq<string>)
    ensures |names| == |files|
  {
    seq(|files|, j requires 0 <= j < |files| => SanitizeFilename(files[j].info.name, timestamp))
  }

  /** The verdict on the files from index `i` on, all earlier ones having
      passed: the first file that fails decides, and when none fails every
      file is renamed. */
  function ScanFrom(files: seq<Upload>, i: nat, timestamp: nat): UploadOutcome
    requires i <= |files|
    decreases |files| - i
  {
    if i == |files| then Ready(SanitizedNames(files, timestamp))
    else
      var f := files[i];
      var errors := ExpectedErrors(Some(f.info));
      if |errors| != 0 then FileRejected(f.info.name, errors)
      else if !ContentMatches(f.content, f.info.mimeType) then
        ContentMismatch(f.info.name, f.info.mimeType, DetectedType(Header(f.content)))
      else ScanFrom(files, i + 1, timestamp)
  }

  /** A file that gets through passes every check and its content matches. */
  predicate Passes(u: Upload) {
    |ExpectedErrors(Some(u.info))| == 0 && ContentMatches(u.content, u.info.mimeType)
  }

  /** An upload that gets through has every file valid, with matching content,
      and gets one sanitised name per file. */
  lemma {:induction false} ReadyMeansEveryFilePassed(files: seq<Upload>, i: nat, timestamp: nat)
    requires i <= |files|
    requires ScanFrom(files, i, timestamp).Ready?
    ensures ScanFrom(files, i, timestamp).names == SanitizedNames(files, timestamp)
    ensures forall j {:trigger Passes(files[j])} :: i <= j < |files| ==> Passes(files[j])
    decreases |files| - i
  {
    if i < |files| {
      var f := files[i];
      assert |ExpectedErrors(Some(f.info))| == 0;
      assert ContentMatches(f.content, f.info.mimeType);
      assert ScanFrom(files, i, timestamp) == ScanFrom(files, i + 1, timestamp);
      ReadyMeansEveryFilePassed(files, i + 1, timestamp);
      assert Passes(f);
      forall j | i <= j < |files| ensures Passes(files[j]) {
        if j > i {
          assert i + 1 <= j;
        }
      }
    }
  }

  /** The loop of `secureFileUpload` over the files: the first file that
      fails validation or the content check decides; `None` when all pass. */
  method CheckFiles(files: seq<Upload>, timestamp: nat) returns (failure: Option<UploadOutcome>)
    ensures failure.Some? ==> failure.value == ScanFrom(files, 0, timestamp)
    ensures failure.None? ==> ScanFrom(files, 0, timestamp) == ScanFrom(files, |files|, timestamp)
  {
    var i := 0;
    while i < |files|
      invariant 0 <= i <= |files|
      invariant ScanFrom(files, 0, timestamp) == ScanFrom(files, i, timestamp)
    {
      var f := files[i];
      var valid, errors := ValidateFile(Some(f.info));
      if !valid {
        return Some(FileRejected(f.info.name, errors));
      }
      var header := HexHeader(f.content);
      var detected := DetectedType(header);
      if detected != Some(f.info.mimeType) {
        return Some(ContentMismatch(f.info.name, f.info.mimeType, detected));
      }
      i := i + 1;
    }
    return None;
  }

  /** The validation part of `secureFileUpload`: more than five files fail
      before any file is looked at; then each file is validated and its
      content checked, in order, stopping at the first failure. */
  method SecureFileUpload(files: seq<Upload>, timestamp: nat) returns (outcome: UploadOutcome)
    ensures |files| > MaxFiles ==> outcome == TooManyFiles
    ensures |files| <= MaxFiles ==> outcome == ScanFrom(files, 0, timestamp)
  {
    if |files| > MaxFiles {
      return TooManyFiles;
    }
    var failure := CheckFiles(files, timestamp);
    if failure.Some? {
      return failure.value;
    }
    outcome := Ready(SanitizedNames(files, timestamp));
  }
}
