/**
 * Path arithmetic on distinguished names (DNs) as the organizational-unit
 * resource does it: plain comma-separated text, most specific component
 * first, with no escaping (a comma inside a value is not recognised).
 *
 * The source does this with four regular expressions; here each is a
 * total string function, and the lemmas say which inputs each accepts and
 * what it extracts.
 */
module DnPath {

  datatype Option<T> = None | Some(value: T)

  /** `n` space characters. */
  function Spaces(n: nat): string
  {
    seq(n, _ => ' ')
  }

  /** Index of the first comma in `s` at or after `k`, or `|s|` when there is none. */
  function NextComma(s: string, k: nat): (i: nat)
    requires k <= |s|
    ensures k <= i <= |s|
    ensures i < |s| ==> s[i] == ','
    ensures forall j :: k <= j < i ==> s[j] != ','
    decreases |s| - k
  {
    if k == |s| || s[k] == ',' then k else NextComma(s, k + 1)
  }

  /** The comma scan from `k` stops exactly at `i` when `i` is the first comma there (or the end). */
  lemma NextCommaAt(s: string, k: nat, i: nat)
    requires k <= i <= |s|
    requires forall j :: k <= j < i ==> s[j] != ','
    requires i == |s| || s[i] == ','
    ensures NextComma(s, k) == i
  {
  }

  /** Index of the first non-space character of `s` at or after `k` (the greedy ` *`), or `|s|`. */
  function SkipSpaces(s: string, k: nat): (m: nat)
    requires k <= |s|
    ensures k <= m <= |s|
    ensures m < |s| ==> s[m] != ' '
    ensures forall j :: k <= j < m ==> s[j] == ' '
    decreases |s| - k
  {
    if k == |s| || s[k] != ' ' then k else SkipSpaces(s, k + 1)
  }

  /** The space scan from `k` stops exactly at `m` when the spaces there end at `m`. */
  lemma SkipSpacesAt(s: string, k: nat, m: nat)
    requires k <= m <= |s|
    requires forall j :: k <= j < m ==> s[j] == ' '
    requires m == |s| || s[m] != ' '
    ensures SkipSpaces(s, k) == m
  {
  }

  /** Index where the run of spaces ending just before `k` starts. */
  function SkipSpacesBack(s: string, k: nat): (m: nat)
    requires k <= |s|
    ensures m <= k
    ensures m > 0 ==> s[m - 1] != ' '
    ensures forall j :: m <= j < k ==> s[j] == ' '
  {
    if k == 0 || s[k - 1] != ' ' then k else SkipSpacesBack(s, k - 1)
  }

  /**
   * The parent of a DN (getParentObject): the pattern `^[^,]+, *(.*)$`
   * needs a non-empty first component before the first comma; the parent
   * is what follows that comma, without the spaces right after it. With no
   * such comma the result is "", the "root reached" sentinel.
   * The source exits the process on "", so that input is excluded here.
   */
  function ParentOf(dn: string): (parent: string)
    requires dn != ""
    ensures |parent| < |dn|
    ensures parent == dn[|dn| - |parent|..]
    ensures ',' !in dn ==> parent == ""
  {
    var i := NextComma(dn, 0);
    if i == 0 || i == |dn| then "" else dn[SkipSpaces(dn, i + 1)..]
  }

  /**
   * `c + "," + spaces + rest`, with `c` a non-empty first component, has
   * `rest` as its parent: exactly one component and the spaces after its
   * comma are dropped, and the rest is kept as it is.
   */
  lemma ParentOfSplit(c: string, n: nat, rest: string)
    requires c != "" && ',' !in c
    requires rest == "" || rest[0] != ' '
    ensures ParentOf(c + "," + Spaces(n) + rest) == rest
  {
    var dn := c + "," + Spaces(n) + rest;
    var m := |c| + 1 + n;
    SplitParts(c, n, rest);
    NextCommaAt(dn, 0, |c|);
    SkipSpacesAt(dn, |c| + 1, m);
    assert dn[m..] == rest;
  }

  /** The characters of `c + "," + spaces + rest`, position by position. */
  lemma SplitParts(c: string, n: nat, rest: string)
    requires ',' !in c
    requires rest == "" || rest[0] != ' '
    ensures var dn := c + "," + Spaces(n) + rest;
      |dn| == |c| + 1 + n + |rest| &&
      (forall j :: 0 <= j < |c| ==> dn[j] != ',') &&
      dn[|c|] == ',' &&
      (forall j :: |c| < j <= |c| + n ==> dn[j] == ' ') &&
      (|dn| == |c| + 1 + n || dn[|c| + 1 + n] != ' ') &&
      dn[|c| + 1 + n..] == rest
  {
    var dn := c + "," + Spaces(n) + rest;
    forall j | 0 <= j < |c|
      ensures dn[j] != ','
    {
      assert dn[j] == c[j];
    }
    forall j | |c| < j <= |c| + n
      ensures dn[j] == ' '
    {
      assert dn[j] == Spaces(n)[j - |c| - 1];
    }
    if rest != "" {
      assert dn[|c| + 1 + n] == rest[0];
    }
  }

  /** A DN whose first character is a comma has no first component, so no parent. */
  lemma ParentOfLeadingComma(dn: string)
    requires dn != "" && dn[0] == ','
    ensures ParentOf(dn) == ""
  {
  }

  /**
   * The containment test of createOU, the pattern `.*, *<base>$` with the
   * base read literally: `dn` ends with a comma, zero or more spaces and
   * then `base`. What comes before that comma may be empty.
   */
  function IsWithinBase(dn: string, base: string): (within: bool)
    ensures within ==> |dn| > |base| && dn[|dn| - |base|..] == base
  {
    |base| < |dn| && dn[|dn| - |base|..] == base &&
    var h := SkipSpacesBack(dn, |dn| - |base|);
    h > 0 && dn[h - 1] == ','
  }

  /** Position `i` of `dn` holds the comma that the containment pattern matches before `base`. */
  ghost predicate BaseSeparatorAt(dn: string, base: string, i: int)
  {
    0 <= i < |dn| - |base| && dn[i] == ',' &&
    (forall j :: i < j < |dn| - |base| ==> dn[j] == ' ') &&
    dn[|dn| - |base|..] == base
  }

  /** The containment test accepts exactly the DNs of the form `prefix + "," + spaces + base`. */
  lemma IsWithinBaseMeans(dn: string, base: string)
    ensures IsWithinBase(dn, base) <==> exists i :: BaseSeparatorAt(dn, base, i)
  {
    if IsWithinBase(dn, base) {
      var h := SkipSpacesBack(dn, |dn| - |base|);
      assert BaseSeparatorAt(dn, base, h - 1);
    }
    if i :| BaseSeparatorAt(dn, base, i) {
      var h := SkipSpacesBack(dn, |dn| - |base|);
      assert h == i + 1;
    }
  }

  /** Every DN built as `prefix + "," + spaces + base` passes the containment test. */
  lemma WithinBaseOfSplit(prefix: string, n: nat, base: string)
    ensures IsWithinBase(prefix + "," + Spaces(n) + base, base)
  {
    var dn := prefix + "," + Spaces(n) + base;
    var i := |prefix|;
    assert dn[i] == ',';
    forall j | i < j < |dn| - |base|
      ensures dn[j] == ' '
    {
      assert dn[j] == Spaces(n)[j - i - 1];
    }
    assert dn[|dn| - |base|..] == base;
    assert BaseSeparatorAt(dn, base, i);
    IsWithinBaseMeans(dn, base);
  }

  /** The search base itself is never inside the search base: createOU rejects it. */
  lemma BaseIsNotWithinItself(base: string)
    ensures !IsWithinBase(base, base)
  {
  }

  /**
   * One step up from a DN inside the base stays inside the base or reaches
   * the base itself, provided the DN starts with a component and the base
   * does not start with a space (which the parent pattern would strip).
   */
  lemma ParentStaysWithinBase(dn: string, base: string)
    requires IsWithinBase(dn, base)
    requires dn[0] != ','
    requires base == "" || base[0] != ' '
    ensures ParentOf(dn) == base || IsWithinBase(ParentOf(dn), base)
  {
    IsWithinBaseMeans(dn, base);
    var i :| BaseSeparatorAt(dn, base, i);
    var k := NextComma(dn, 0);
    assert dn[i] == ',';
    assert 0 < k <= i;
    var m := SkipSpaces(dn, k + 1);
    assert ParentOf(dn) == dn[m..];
    if k == i {
      ParentAtSeparator(dn, base, i);
    } else {
      assert m <= i;
      SuffixKeepsSeparator(dn, base, i, m);
      IsWithinBaseMeans(dn[m..], base);
    }
  }

  /** When the first comma is the base separator itself, the spaces after it end where the base starts. */
  lemma ParentAtSeparator(dn: string, base: string, i: int)
    requires BaseSeparatorAt(dn, base, i)
    requires base == "" || base[0] != ' '
    ensures SkipSpaces(dn, i + 1) == |dn| - |base|
  {
    var cut := |dn| - |base|;
    if base != "" {
      assert dn[cut] == base[0];
    }
    SkipSpacesAt(dn, i + 1, cut);
  }

  /** A suffix of `dn` that starts at or before the base separator still has it. */
  lemma SuffixKeepsSeparator(dn: string, base: string, i: int, m: nat)
    requires BaseSeparatorAt(dn, base, i)
    requires m <= i
    ensures BaseSeparatorAt(dn[m..], base, i - m)
  {
    var p := dn[m..];
    var cut := |dn| - |base|;
    assert |p| - |base| == cut - m;
    assert p[i - m] == dn[i];
    assert p[cut - m..] == dn[cut..];
    forall j | i - m < j < cut - m
      ensures p[j] == ' '
    {
      assert p[j] == dn[j + m];
    }
  }

  /** The case-insensitive `^ou=` test: the leaf component is an `OU=` component. */
  predicate HasOuPrefix(dn: string)
  {
    |dn| >= 3 && (dn[0] == 'o' || dn[0] == 'O') && (dn[1] == 'u' || dn[1] == 'U') && dn[2] == '='
  }

  /** The `^ou=` test holds exactly when the DN starts with one of the four spellings of `ou=`. */
  lemma HasOuPrefixMeans(dn: string)
    ensures HasOuPrefix(dn) <==> |dn| >= 3 && dn[..3] in {"ou=", "oU=", "Ou=", "OU="}
  {
    if |dn| >= 3 {
      var k := dn[..3];
      assert k == [dn[0], dn[1], dn[2]];
    }
  }

  /**
   * The value of the leaf `OU=` component (the pattern `(?i)^OU=([^,]+).*$`):
   * the non-empty text after the prefix, up to the first comma. None when
   * the pattern does not match, where the source indexes a nil match.
   */
  function LeafValue(dn: string): (v: Option<string>)
    ensures v.Some? <==> HasOuPrefix(dn) && |dn| > 3 && dn[3] != ','
    ensures v.Some? ==>
      v.value != "" && ',' !in v.value && 3 + |v.value| <= |dn| && dn[3..3 + |v.value|] == v.value &&
      (3 + |v.value| == |dn| || dn[3 + |v.value|] == ',')
  {
    if HasOuPrefix(dn) && |dn| > 3 && dn[3] != ',' then
      Some(dn[3..NextComma(dn, 3)])
    else
      None
  }

  /** Writing an `OU=` component and reading its value back gives the value. */
  lemma LeafValueOfComponent(key: string, value: string, rest: string)
    requires |key| == 3 && HasOuPrefix(key)
    requires value != "" && ',' !in value
    requires rest == "" || rest[0] == ','
    ensures LeafValue(key + value + rest) == Some(value)
  {
    var dn := key + value + rest;
    var end := 3 + |value|;
    forall j | 3 <= j < end
      ensures dn[j] != ','
    {
      assert dn[j] == value[j - 3];
    }
    if rest != "" {
      assert dn[end] == rest[0];
    }
    NextCommaAt(dn, 3, end);
    assert dn[3..end] == value;
  }
}
