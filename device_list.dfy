/** The device picker shows each capture device by the part of its name after
    the last backslash (DeviceListForm_Load; the capture window computes the
    same expression for its device label). */
module DeviceList {

  /** The last position before `n` holding `c`, or -1. */
  function LastIndexBefore(s: string, c: char, n: nat): (r: int)
    requires n <= |s|
    ensures -1 <= r < n
    ensures r >= 0 ==> s[r] == c
    ensures forall j :: r < j < n ==> s[j] != c
    decreases n
  {
    if n == 0 then -1
    else if s[n - 1] == c then n - 1
    else LastIndexBefore(s, c, n - 1)
  }

  /** .NET `String.LastIndexOf(char)`: the last position of `c`, or -1. */
  function LastIndexOf(s: string, c: char): (r: int)
    ensures -1 <= r < |s|
    ensures r >= 0 ==> s[r] == c
    ensures forall j :: r < j < |s| ==> s[j] != c
  {
    LastIndexBefore(s, c, |s|)
  }

  /** `name.Substring(name.LastIndexOf('\\') + 1,
                      name.Length - name.LastIndexOf('\\') - 1)`: the length
      passed to Substring reaches exactly to the end of the name, so the
      call is the slice after the last backslash. */
  function DisplayName(name: string): string {
    name[LastIndexOf(name, '\\') + 1..]
  }

  /** The displayed name is the longest suffix of the name without a
      backslash: it is a suffix, it holds no backslash, and it is either the
      whole name or preceded by a backslash. */
  lemma DisplayNameIsSuffix(name: string)
    ensures var r := DisplayName(name);
            && |r| <= |name| && r == name[|name| - |r|..]
            && '\\' !in r
            && (|r| == |name| || name[|name| - |r| - 1] == '\\')
  {
    var k := LastIndexOf(name, '\\');
    var r := name[k + 1..];
    assert DisplayName(name) == r;
    forall j | 0 <= j < |r|
      ensures r[j] != '\\'
    {
      assert r[j] == name[k + 1 + j];
    }
  }

  /** A name without a backslash is shown whole (LastIndexOf gives -1). */
  lemma NoBackslashShownWhole(name: string)
    requires '\\' !in name
    ensures DisplayName(name) == name
  {
    var k := LastIndexOf(name, '\\');
    assert k == -1;
    DisplayNameIsSuffix(name);
  }

  /** A name ending in a backslash is shown as the empty string. */
  lemma TrailingBackslashShownEmpty(name: string)
    requires |name| > 0 && name[|name| - 1] == '\\'
    ensures DisplayName(name) == ""
  {
  }

  /** A name with a backslash is the prefix, the last backslash and the
      displayed name. */
  lemma NameSplitsAtLastBackslash(name: string)
    requires '\\' in name
    ensures var k := LastIndexOf(name, '\\');
            0 <= k && name == name[..k] + "\\" + DisplayName(name)
  {
    var k := LastIndexOf(name, '\\');
    DisplayNameIsSuffix(name);
    assert name == name[..k] + [name[k]] + name[k + 1..];
  }

  /** Taking the displayed name of a displayed name changes nothing. */
  lemma DisplayNameIdempotent(name: string)
    ensures DisplayName(DisplayName(name)) == DisplayName(name)
  {
    DisplayNameIsSuffix(name);
    NoBackslashShownWhole(DisplayName(name));
  }
}
