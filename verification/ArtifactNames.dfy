/** The file names an artifact may get, and the search for one that is free. */
module ArtifactNames {
  import opened Wrappers
  import opened Texts

  datatype Format = Png | Jpeg | Webp

  type Bytes = seq<int>

  type Directory = map<string, Bytes>

  const SUFFIX_ATTEMPTS := 10_000

  function DefaultExtension(format: Format): string {
    match format
    case Png => "png"
    case Jpeg => "jpg"
    case Webp => "webp"
  }

  predicate Portable(c: char) {
    'a' <= c <= 'z' || 'A' <= c <= 'Z' || '0' <= c <= '9' || c in "-_."
  }

  /** Where the last dot is. */
  function LastDot(s: string): (r: Option<nat>)
    ensures r == None ==> '.' !in s
    ensures r.Some? ==> r.value < |s| && s[r.value] == '.' && '.' !in s[r.value + 1..]
  {
    if s == [] then None
    else if s[|s| - 1] == '.' then Some(|s| - 1)
    else match LastDot(s[..|s| - 1])
      case None => None
      case Some(at) =>
        assert s[at + 1..] == s[..|s| - 1][at + 1..] + [s[|s| - 1]];
        Some(at)
  }

  function Stem(s: string): string {
    match LastDot(s)
    case None => s
    case Some(at) => s[..at]
  }

  function Extension(s: string): Option<string> {
    match LastDot(s)
    case None => None
    case Some(at) => Some(s[at + 1..])
  }

  predicate Matching(extension: string, format: Format) {
    match format
    case Png => Lowered(extension) == "png"
    case Jpeg => Lowered(extension) == "jpg" || Lowered(extension) == "jpeg"
    case Webp => Lowered(extension) == "webp"
  }

  predicate SafeFilename(value: string, format: Format) {
    && 0 < |value| <= 160 && value[0] != '.' && (forall c :: c in value ==> Portable(c))
    && match Extension(value)
      case None => true
      case Some(extension) => Matching(extension, format)
  }

  function WithExtension(filename: string, format: Format): string {
    if Extension(filename).Some? then filename else filename + "." + DefaultExtension(format)
  }

  function Digit(n: nat): char
    requires n < 10
  {
    ['0', '1', '2', '3', '4', '5', '6', '7', '8', '9'][n]
  }

  function Decimal(n: nat): (r: string)
    ensures r != [] && '.' !in r
  {
    if n < 10 then [Digit(n)] else Decimal(n / 10) + [Digit(n % 10)]
  }

  function Suffixed(filename: string, suffix: nat): string {
    match Extension(filename)
    case None => Stem(filename) + "-" + Decimal(suffix)
    case Some(extension) => Stem(filename) + "-" + Decimal(suffix) + "." + extension
  }

  /** The name tried at an attempt: the one asked for, then the same with 2, 3, and so on. */
  function Attempt(requested: string, attempt: nat): string {
    if attempt == 0 then requested else Suffixed(requested, attempt + 1)
  }

  function SidecarFilename(id: string): string {
    "metadata-" + id + ".json"
  }

  ghost predicate FirstFree(directory: Directory, requested: string, k: nat) {
    Attempt(requested, k) !in directory && forall j: nat :: j < k ==> Attempt(requested, j) in directory
  }

  /** Takes the first free name and no other, and never writes over a file. */
  method PublishNoclobber(directory: Directory, requested: string, bytes: Bytes, suffix: bool)
    returns (after: Directory, name: Option<string>)
    ensures var attempts := if suffix then SUFFIX_ATTEMPTS else 1;
      match name
      case Some(found) =>
        && found !in directory && after == directory[found := bytes]
        && (exists k: nat :: FirstFree(directory, requested, k) && k < attempts && found == Attempt(requested, k))
      case None => after == directory && forall j :: 0 <= j < attempts ==> Attempt(requested, j) in directory
  {
    var attempts := if suffix then SUFFIX_ATTEMPTS else 1;
    var attempt := 0;
    while attempt < attempts
      invariant 0 <= attempt <= attempts
      invariant forall j :: 0 <= j < attempt ==> Attempt(requested, j) in directory
    {
      var candidate := Attempt(requested, attempt);
      if candidate !in directory {
        assert FirstFree(directory, requested, attempt);
        return directory[candidate := bytes], Some(candidate);
      }
      attempt := attempt + 1;
    }
    return directory, None;
  }

  // ----- what a name may be

  /** An ASCII digit, letter, hyphen, dot or underscore. */
  predicate Admitted(c: char) {
    var code := c as int;
    48 <= code <= 57 || 65 <= code <= 90 || 97 <= code <= 122 || code in {45, 46, 95}
  }

  /** The same up to capitals in `a`, for a `b` in small letters. */
  predicate SameLetters(a: string, b: string) {
    |a| == |b| && forall i :: 0 <= i < |a| ==> a[i] == b[i] || a[i] as int + 32 == b[i] as int
  }

  predicate Small(b: string) {
    forall c :: c in b ==> 97 <= c as int <= 122
  }

  lemma LoweredIff(a: string, b: string)
    requires Small(b)
    ensures Lowered(a) == b <==> SameLetters(a, b)
  {
    if Lowered(a) == b {
      assert forall i :: 0 <= i < |a| ==> Lowered(a)[i] == b[i];
    }
    if SameLetters(a, b) {
      forall i | 0 <= i < |a| ensures Lowered(a)[i] == b[i] {
        assert b[i] in b;
      }
    }
  }

  lemma PortableIff(c: char)
    ensures Portable(c) <==> Admitted(c)
  {
    assert "-_." == ['-', '_', '.'];
  }

  /** A name is accepted exactly when it is one portable, visible path component whose extension suits the image. */
  lemma SafeIff(value: string, format: Format)
    ensures SafeFilename(value, format) <==>
      && 1 <= |value| <= 160 && value[0] != '.' && (forall i :: 0 <= i < |value| ==> Admitted(value[i]))
      && (Extension(value) == None || match format
          case Png => SameLetters(Extension(value).value, "png")
          case Jpeg => SameLetters(Extension(value).value, "jpg") || SameLetters(Extension(value).value, "jpeg")
          case Webp => SameLetters(Extension(value).value, "webp"))
  {
    hide Portable, Admitted, Lowered, SameLetters;
    forall c ensures Portable(c) <==> Admitted(c) {
      PortableIff(c);
    }
    assert (forall c :: c in value ==> Portable(c)) <==> (forall i :: 0 <= i < |value| ==> Admitted(value[i]));
    if Extension(value).Some? {
      var extension := Extension(value).value;
      LoweredIff(extension, "png");
      LoweredIff(extension, "jpg");
      LoweredIff(extension, "jpeg");
      LoweredIff(extension, "webp");
    }
  }

  // ----- suffixes never collide

  function Numeral(digits: string): int {
    if digits == [] then 0 else 10 * Numeral(digits[..|digits| - 1]) + digits[|digits| - 1] as int - 48
  }

  lemma {:induction false} DecimalMeaning(n: nat)
    ensures Numeral(Decimal(n)) == n && (forall c :: c in Decimal(n) ==> 48 <= c as int <= 57)
    ensures n > 0 ==> Decimal(n)[0] != '0'
  {
    if n >= 10 {
      DecimalMeaning(n / 10);
      var all := Decimal(n);
      assert all[..|all| - 1] == Decimal(n / 10);
    } else {
      assert Decimal(n)[..0] == [];
    }
  }

  lemma {:induction false} DecimalInjective(m: nat, n: nat)
    requires Decimal(m) == Decimal(n)
    ensures m == n
  {
    var a, b := Decimal(m), Decimal(n);
    LastDigit(m);
    LastDigit(n);
    if m >= 10 && n >= 10 {
      assert a[..|a| - 1] == Decimal(m / 10) && b[..|b| - 1] == Decimal(n / 10);
      DecimalInjective(m / 10, n / 10);
    }
  }

  lemma LastDigit(n: nat)
    ensures var s := Decimal(n); s[|s| - 1] == Digit(n % 10) && (n >= 10 <==> |s| > 1)
  {
  }

  lemma MiddleInjective(before: string, a: string, b: string, after: string)
    requires before + a + after == before + b + after
    ensures a == b
  {
    assert |a| == |b|;
    forall i | 0 <= i < |a| ensures a[i] == b[i] {
      assert (before + a + after)[|before| + i] == a[i];
      assert (before + b + after)[|before| + i] == b[i];
    }
  }

  lemma SuffixedLonger(filename: string, suffix: nat)
    ensures |Suffixed(filename, suffix)| > |filename|
  {
  }

  function Ending(filename: string): string {
    match Extension(filename)
    case None => ""
    case Some(extension) => "." + extension
  }

  lemma SuffixedShape(filename: string, suffix: nat)
    ensures Suffixed(filename, suffix) == Stem(filename) + "-" + Decimal(suffix) + Ending(filename)
  {
    hide Stem, Decimal, Extension;
    var before := Stem(filename) + "-" + Decimal(suffix);
    assert before + "" == before;
    if Extension(filename).Some? {
      assert before + "." + Extension(filename).value == before + ("." + Extension(filename).value);
    }
  }

  /** Each attempt tries another name, so ten thousand attempts fail only against ten thousand files. */
  lemma AttemptsDiffer(requested: string, i: nat, j: nat)
    requires Attempt(requested, i) == Attempt(requested, j)
    ensures i == j
  {
    hide Suffixed, Decimal, Stem, Ending;
    if i == 0 || j == 0 {
      SuffixedLonger(requested, i + 1);
      SuffixedLonger(requested, j + 1);
    } else {
      SuffixedShape(requested, i + 1);
      SuffixedShape(requested, j + 1);
      MiddleInjective(Stem(requested) + "-", Decimal(i + 1), Decimal(j + 1), Ending(requested));
      DecimalInjective(i + 1, j + 1);
    }
  }

  // ----- images and sidecars never share a name

  lemma ExtensionOf(before: string, extension: string)
    requires '.' !in extension
    ensures Extension(before + "." + extension) == Some(extension)
    ensures Stem(before + "." + extension) == before
  {
    var s := before + "." + extension;
    assert s[|before|] == '.';
    assert s[|before| + 1..] == extension;
    var at := LastDot(s).value;
    assert at >= |before| by {
      assert forall i :: at < i < |s| ==> s[i] == s[at + 1..][i - at - 1];
    }
    assert forall i :: |before| < i < |s| ==> s[i] == extension[i - |before| - 1];
  }

  /** A name without an extension gets that of its format behind it, any other is complete. */
  lemma CompletionMeaning(filename: string, format: Format)
    ensures var complete := WithExtension(filename, format);
      if Extension(filename).Some? then complete == filename
      else
        && Stem(complete) == filename
        && Extension(complete) == Some(match format case Png => "png" case Jpeg => "jpg" case Webp => "webp")
  {
    DefaultMatches(format);
    ExtensionOf(filename, DefaultExtension(format));
  }

  /** An explicit name, made complete, or with any suffix, keeps an image extension. */
  lemma ImageExtension(filename: string, format: Format, attempt: nat)
    requires SafeFilename(filename, format)
    ensures var e := Extension(Attempt(WithExtension(filename, format), attempt)); e.Some? && Matching(e.value, format)
  {
    var complete := WithExtension(filename, format);
    assert Extension(complete).Some? && Matching(Extension(complete).value, format) by {
      if Extension(filename) == None {
        DefaultMatches(format);
        ExtensionOf(filename, DefaultExtension(format));
      }
    }
    if attempt > 0 {
      var extension := Extension(complete).value;
      ExtensionOf(Stem(complete) + "-" + Decimal(attempt + 1), extension);
    }
  }

  lemma DefaultMatches(format: Format)
    ensures Matching(DefaultExtension(format), format) && '.' !in DefaultExtension(format)
  {
    assert Lowered("png") == "png" && Lowered("jpg") == "jpg" && Lowered("webp") == "webp";
  }

  lemma JsonMatchesNone(format: Format)
    ensures !Matching("json", format)
  {
    var lowered := Lowered("json");
    assert lowered[0] == 'j' && lowered[1] == 's' && |lowered| == 4;
    assert "jpeg"[1] == 'p' && "webp"[0] == 'w';
  }

  /** So no image is ever published under the name of a sidecar. */
  lemma ImageIsNoSidecar(filename: string, format: Format, attempt: nat, id: string)
    requires SafeFilename(filename, format)
    ensures Attempt(WithExtension(filename, format), attempt) != SidecarFilename(id)
  {
    hide SafeFilename, WithExtension, Attempt, Extension;
    ImageExtension(filename, format, attempt);
    ExtensionOf("metadata-" + id, "json");
    assert SidecarFilename(id) == "metadata-" + id + "." + "json";
    JsonMatchesNone(format);
  }
}
