/** The names of the files a rotating sink keeps. */
module FileNames {
  import opened Decimal

  const SEPARATOR := '/'

  // The position of the last c in s, or -1.
  function LastIndexOf(s: string, c: char): (r: int)
    ensures -1 <= r < |s|
    ensures r >= 0 ==> s[r] == c
    ensures forall i :: r < i < |s| ==> s[i] != c
  {
    if s == "" then -1
    else if s[|s| - 1] == c then |s| - 1
    else LastIndexOf(s[..|s| - 1], c)
  }

  function SplitByExtension(fname: string): (string, string) {
    var extIndex := LastIndexOf(fname, '.');
    if extIndex == -1 || extIndex == 0 || extIndex == |fname| - 1 then (fname, "")
    else
      var folderIndex := LastIndexOf(fname, SEPARATOR);
      if folderIndex != -1 && folderIndex >= extIndex - 1 then (fname, "")
      else (fname[..extIndex], fname[extIndex..])
  }

  // A dot at k starts an extension: the file's own name begins before it, something follows
  // it, and no dot or directory comes later.
  predicate ExtensionAt(fname: string, k: nat) {
    && 1 <= k < |fname| - 1
    && fname[k] == '.' && fname[k - 1] != SEPARATOR
    && forall i :: k < i < |fname| ==> fname[i] != '.' && fname[i] != SEPARATOR
  }

  // The two pieces always concatenate to the name, and the second is nonempty exactly when the
  // name has an extension, which it then is.
  lemma SplitIsExact(fname: string)
    ensures var (b, ext) := SplitByExtension(fname);
            && b + ext == fname
            && (ext != "" <==> exists k: nat :: ExtensionAt(fname, k))
            && (forall k: nat :: ExtensionAt(fname, k) ==> b == fname[..k] && ext == fname[k..])
  {
    var (b, ext) := SplitByExtension(fname);
    var extIndex := LastIndexOf(fname, '.');
    forall k: nat | ExtensionAt(fname, k) ensures k == extIndex && b == fname[..k] && ext == fname[k..] {
      assert fname[k] == '.';
    }
    if ext != "" {
      assert ExtensionAt(fname, extIndex);
    }
  }

  function CalcFilename(filename: string, index: nat): string {
    if index == 0 then filename
    else
      var (b, ext) := SplitByExtension(filename);
      b + "." + Dec(index) + ext
  }

  lemma MiddleOf(a: string, m: string, n: string, z: string)
    requires a + m + z == a + n + z
    ensures m == n
  {
    assert |m| == |n|;
    assert (a + m + z)[|a|..|a| + |m|] == m;
    assert (a + n + z)[|a|..|a| + |n|] == n;
  }

  // Different indices name different files, whatever the base name is.
  lemma CalcFilenameInjective(filename: string, i: nat, j: nat)
    requires CalcFilename(filename, i) == CalcFilename(filename, j)
    ensures i == j
  {
    SplitIsExact(filename);
    var (b, ext) := SplitByExtension(filename);
    assert filename == b + ext;
    if i != 0 && j != 0 {
      MiddleOf(b + ".", Dec(i), Dec(j), ext);
      DecInjective(i, j);
    }
  }

  // A numeral: digits only, without a leading zero, that read as i.
  predicate Numeral(d: string, i: nat) {
    d != "" && AllDigits(d) && d[0] != '0' && Value(d) == i
  }

  // The index stands before the extension if the name has one, and after the name otherwise.
  lemma IndexBeforeExtension(fname: string, i: nat)
    requires i > 0
    ensures exists d :: Numeral(d, i)
              && (forall k: nat :: ExtensionAt(fname, k) ==> CalcFilename(fname, i) == fname[..k] + "." + d + fname[k..])
              && ((forall k: nat :: !ExtensionAt(fname, k)) ==> CalcFilename(fname, i) == fname + "." + d)
    ensures CalcFilename(fname, 0) == fname
  {
    SplitIsExact(fname);
    DecReadsBack(i);
    NoLeadingZero(i);
    var d := Dec(i);
    var (b, ext) := SplitByExtension(fname);
    assert Numeral(d, i);
    if forall k: nat :: !ExtensionAt(fname, k) {
      assert ext == "" && b == fname;
      assert CalcFilename(fname, i) == fname + "." + d + "" == fname + "." + d;
    }
  }
}
