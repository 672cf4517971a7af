/**
 * Which files of the work directory are pages, and in which order they are stacked:
 * keep the names starting with "page", sort them by the integer value of the first run
 * of digits in the name (0 when there is none), and prefix each with the work directory.
 * The TypeScript source and the compiled JavaScript build do this with the same code.
 */
module PageOrder {
  import opened Wrappers

  /** The prefix the rasterizer gives every page file. */
  const PagePrefix: string := "page"

  /** `s.startsWith(prefix)`: `s` is `prefix` followed by the rest of `s`. */
  predicate StartsWith(s: string, prefix: string)
    ensures StartsWith(s, prefix) <==> |prefix| <= |s| && s == prefix + s[|prefix|..]
  {
    |prefix| <= |s| && s[..|prefix|] == prefix
  }

  /** The directory entries whose name starts with the page prefix, in listing order. */
  function PageEntries(files: seq<string>): (r: seq<string>)
    ensures forall f :: multiset(r)[f] == if StartsWith(f, PagePrefix) then multiset(files)[f] else 0
    ensures forall f :: f in r ==> StartsWith(f, PagePrefix)
  {
    if files == [] then []
    else
      assert files == [files[0]] + files[1..];
      (if StartsWith(files[0], PagePrefix) then [files[0]] else []) + PageEntries(files[1..])
  }

  // ---------------------------------------------------------------------------
  // The sort key: `parseInt(name.match(/\d+/)?.[0] || "0")`
  // ---------------------------------------------------------------------------

  /** `\d` without the unicode flag: the ASCII digits. */
  predicate IsDigit(c: char)
  {
    '0' <= c <= '9'
  }

  predicate AllDigits(s: string)
  {
    forall j :: 0 <= j < |s| ==> IsDigit(s[j])
  }

  predicate NoDigits(s: string)
  {
    forall j :: 0 <= j < |s| ==> !IsDigit(s[j])
  }

  /** Index of the first digit of `s`, or `|s|` when it has none. */
  function FirstDigitIndex(s: string): (i: nat)
    ensures i <= |s|
    ensures NoDigits(s[..i])
    ensures i < |s| ==> IsDigit(s[i])
  {
    if s == [] || IsDigit(s[0]) then 0
    else
      var i := 1 + FirstDigitIndex(s[1..]);
      assert s[..i] == [s[0]] + s[1..][..i - 1];
      i
  }

  /** The longest prefix of `s` made of digits. */
  function LeadingDigits(s: string): (d: string)
    ensures d <= s
    ensures AllDigits(d)
    ensures |d| < |s| ==> !IsDigit(s[|d|])
  {
    if s == [] || !IsDigit(s[0]) then [] else [s[0]] + LeadingDigits(s[1..])
  }

  /** What `name.match(/\d+/)?.[0]` yields: the leftmost, greedy (maximal) run of digits, if any. */
  function FirstDigitRun(name: string): (r: Option<string>)
    ensures r.None? <==> NoDigits(name)
    ensures r.Some? ==>
              var i, d := FirstDigitIndex(name), r.value;
              && 0 < |d| && AllDigits(d)
              && i + |d| <= |name| && name[i..i + |d|] == d
              && (i + |d| == |name| || !IsDigit(name[i + |d|]))
  {
    var i := FirstDigitIndex(name);
    if i == |name| then
      assert name[..i] == name;
      None
    else
      Some(LeadingDigits(name[i..]))
  }

  function DigitValue(c: char): nat
    requires IsDigit(c)
  {
    c as int - '0' as int
  }

  /** `parseInt` of a string of decimal digits, without the precision loss of a float. */
  function DecimalValue(d: string): (r: nat)
    requires AllDigits(d)
    ensures d != [] ==> DigitValue(d[|d| - 1]) <= r
  {
    if d == [] then 0 else 10 * DecimalValue(d[..|d| - 1]) + DigitValue(d[|d| - 1])
  }

  /** A digit run parses to 0 exactly when every digit in it is '0'. */
  lemma {:induction false} DecimalValueZero(d: string)
    requires AllDigits(d)
    ensures DecimalValue(d) == 0 <==> forall j :: 0 <= j < |d| ==> d[j] == '0'
  {
    if d != [] {
      var d' := d[..|d| - 1];
      assert forall j :: 0 <= j < |d'| ==> d'[j] == d[j];
      DecimalValueZero(d');
    }
  }

  /** The sort key of a page file name; a name without digits gets `parseInt("0")`. */
  function Key(name: string): (k: nat)
    ensures NoDigits(name) ==> k == 0
  {
    match FirstDigitRun(name)
    case None => 0
    case Some(d) => DecimalValue(d)
  }

  // ---------------------------------------------------------------------------
  // Decimal spelling: the inverse of DecimalValue, and zero padding
  // ---------------------------------------------------------------------------

  function DigitChar(n: nat): (c: char)
    requires n < 10
    ensures IsDigit(c) && DigitValue(c) == n
  {
    ('0' as int + n) as char
  }

  /** The canonical decimal spelling of `n`: no leading zero unless `n` is 0. */
  function DecimalString(n: nat): (s: string)
    ensures 0 < |s| && AllDigits(s)
    ensures 1 < |s| ==> s[0] != '0'
  {
    if n < 10 then [DigitChar(n)] else DecimalString(n / 10) + [DigitChar(n % 10)]
  }

  function Zeros(z: nat): (s: string)
    ensures |s| == z && AllDigits(s)
    ensures forall j :: 0 <= j < z ==> s[j] == '0'
  {
    if z == 0 then [] else Zeros(z - 1) + ['0']
  }

  lemma {:induction false} DecimalRoundTrip(n: nat)
    ensures DecimalValue(DecimalString(n)) == n
  {
    if n >= 10 {
      var s := DecimalString(n / 10);
      var t := s + [DigitChar(n % 10)];
      assert DecimalString(n) == t;
      assert t[..|t| - 1] == s;
      DecimalRoundTrip(n / 10);
    }
  }

  lemma {:induction false} ZerosAreZero(z: nat)
    ensures DecimalValue(Zeros(z)) == 0
  {
    if z > 0 {
      assert Zeros(z)[..z - 1] == Zeros(z - 1);
      ZerosAreZero(z - 1);
    }
  }

  /** Zero padding does not change the value: "page-01" and "page-1" get the same key. */
  lemma {:induction false} LeadingZerosIgnored(z: nat, d: string)
    requires AllDigits(d)
    ensures AllDigits(Zeros(z) + d)
    ensures DecimalValue(Zeros(z) + d) == DecimalValue(d)
  {
    var s := Zeros(z) + d;
    if d == [] {
      assert s == Zeros(z);
      ZerosAreZero(z);
    } else {
      var d' := d[..|d| - 1];
      assert s[..|s| - 1] == Zeros(z) + d';
      assert s[|s| - 1] == d[|d| - 1];
      LeadingZerosIgnored(z, d');
    }
  }

  lemma {:induction false} FirstDigitIndexAt(s: string, k: nat)
    requires k < |s| && IsDigit(s[k]) && NoDigits(s[..k])
    ensures FirstDigitIndex(s) == k
  {
    if k > 0 {
      assert s[..k][0] == s[0];
      assert s[1..][..k - 1] == s[..k][1..];
      FirstDigitIndexAt(s[1..], k - 1);
    }
  }

  lemma {:induction false} LeadingDigitsOf(digits: string, tail: string)
    requires AllDigits(digits)
    requires tail == [] || !IsDigit(tail[0])
    ensures LeadingDigits(digits + tail) == digits
  {
    if digits != [] {
      assert (digits + tail)[1..] == digits[1..] + tail;
      LeadingDigitsOf(digits[1..], tail);
    }
  }

  /** In a digit-free head, a run of digits and a tail not starting with a digit, the match is that run. */
  lemma FirstDigitRunOf(head: string, digits: string, tail: string)
    requires NoDigits(head)
    requires 0 < |digits| && AllDigits(digits)
    requires tail == [] || !IsDigit(tail[0])
    ensures FirstDigitRun(head + digits + tail) == Some(digits)
  {
    var name := head + digits + tail;
    assert name[..|head|] == head;
    assert name[|head|] == digits[0];
    FirstDigitIndexAt(name, |head|);
    assert name[|head|..] == digits + tail;
    LeadingDigitsOf(digits, tail);
  }

  /**
   * The key of a name made of a digit-free head, a run of digits and a tail that does
   * not start with a digit is the value of that run.
   */
  lemma KeyOfNumberedName(head: string, digits: string, tail: string)
    requires NoDigits(head)
    requires 0 < |digits| && AllDigits(digits)
    requires tail == [] || !IsDigit(tail[0])
    ensures Key(head + digits + tail) == DecimalValue(digits)
  {
    FirstDigitRunOf(head, digits, tail);
  }

  /** The name the rasterizer gives page `n` when it pads the number with `z` zeros. */
  function PageName(z: nat, n: nat, ext: string): string
  {
    "page-" + Zeros(z) + DecimalString(n) + ext
  }

  /**
   * A page file named "page-", then padding zeros, then the page number `n`, then an
   * extension not starting with a digit, sorts under key `n`.
   */
  lemma PageNameKey(z: nat, n: nat, ext: string)
    requires ext == [] || !IsDigit(ext[0])
    ensures Key(PageName(z, n, ext)) == n
  {
    var digits := Zeros(z) + DecimalString(n);
    LeadingZerosIgnored(z, DecimalString(n));
    DecimalRoundTrip(n);
    assert PageName(z, n, ext) == "page-" + digits + ext;
    KeyOfNumberedName("page-", digits, ext);
  }

  /**
   * The order is numeric, whatever the padding: page `m` sorts before page `n` when
   * `m < n`, even when the listing has them the other way round ("page-2.png" before
   * "page-10.png", which a lexicographic sort would reverse).
   */
  lemma NumericOrder(zm: nat, m: nat, zn: nat, n: nat, ext: string)
    requires m < n
    requires ext == [] || !IsDigit(ext[0])
    ensures SortByKey([PageName(zn, n, ext), PageName(zm, m, ext)]) == [PageName(zm, m, ext), PageName(zn, n, ext)]
  {
    PageNameKey(zm, m, ext);
    PageNameKey(zn, n, ext);
    var s := [PageName(zn, n, ext), PageName(zm, m, ext)];
    assert s[1..] == [PageName(zm, m, ext)];
  }

  /**
   * In the sorted result of any listing, page `m` stands before page `n` when `m < n`,
   * whatever their padding and wherever the listing had them.
   */
  lemma NumericOrderInAnyListing(s: seq<string>, i: nat, j: nat,
                                 zm: nat, m: nat, zn: nat, n: nat, ext: string)
    requires m < n
    requires ext == [] || !IsDigit(ext[0])
    requires i < |SortByKey(s)| && SortByKey(s)[i] == PageName(zm, m, ext)
    requires j < |SortByKey(s)| && SortByKey(s)[j] == PageName(zn, n, ext)
    ensures i < j
  {
    var r := SortByKey(s);
    PageNameKey(zm, m, ext);
    PageNameKey(zn, n, ext);
    SortedKeyOrder(r, i, j);
  }

  /** In a key-sorted sequence, a name with a smaller key stands earlier. */
  lemma SortedKeyOrder(r: seq<string>, i: nat, j: nat)
    requires SortedByKey(r)
    requires i < |r| && j < |r| && Key(r[i]) < Key(r[j])
    ensures i < j
  {
  }

  // ---------------------------------------------------------------------------
  // The stable sort by key (`Array.prototype.sort` with `numA - numB`)
  // ---------------------------------------------------------------------------

  predicate SortedByKey(s: seq<string>)
  {
    forall i, j :: 0 <= i < j < |s| ==> Key(s[i]) <= Key(s[j])
  }

  lemma PrependSorted(x: string, s: seq<string>)
    requires SortedByKey(s)
    requires forall y :: y in s ==> Key(x) <= Key(y)
    ensures SortedByKey([x] + s)
  {
    var r := [x] + s;
    forall i, j | 0 <= i < j < |r| ensures Key(r[i]) <= Key(r[j]) {
      assert r[j] == s[j - 1];
      if i > 0 {
        assert r[i] == s[i - 1];
      }
    }
  }

  /** Puts `x` before the first element whose key is not smaller than its own. */
  function Insert(x: string, s: seq<string>): (r: seq<string>)
    ensures |r| == |s| + 1
    ensures multiset(r) == multiset(s) + multiset{x}
  {
    if s == [] || Key(x) <= Key(s[0]) then [x] + s
    else
      assert s == [s[0]] + s[1..];
      [s[0]] + Insert(x, s[1..])
  }

  lemma {:induction false} InsertSorted(x: string, s: seq<string>)
    requires SortedByKey(s)
    ensures SortedByKey(Insert(x, s))
  {
    if s == [] {
      PrependSorted(x, s);
    } else if Key(x) <= Key(s[0]) {
      SortedTail(s);
      PrependSorted(x, s);
    } else {
      var r' := Insert(x, s[1..]);
      SortedTail(s);
      InsertSorted(x, s[1..]);
      forall y | y in r' ensures Key(s[0]) <= Key(y) {
        assert y in multiset(r');
        if y != x {
          assert y in multiset(s[1..]);
          var j :| 0 <= j < |s[1..]| && s[1..][j] == y;
          assert s[j + 1] == y;
        }
      }
      PrependSorted(s[0], r');
    }
  }

  /** Insertion sort by key; ties keep their input order. */
  function SortByKey(s: seq<string>): (r: seq<string>)
    ensures |r| == |s|
    ensures multiset(r) == multiset(s)
    ensures SortedByKey(r)
  {
    if s == [] then []
    else
      assert s == [s[0]] + s[1..];
      InsertSorted(s[0], SortByKey(s[1..]));
      Insert(s[0], SortByKey(s[1..]))
  }

  /** The elements of `s` whose key is `k`, in their order in `s`. */
  function KeyClass(s: seq<string>, k: nat): seq<string>
  {
    if s == [] then [] else (if Key(s[0]) == k then [s[0]] else []) + KeyClass(s[1..], k)
  }

  lemma {:induction false} KeyClassMembers(s: seq<string>, k: nat, x: string)
    requires x in KeyClass(s, k)
    ensures x in s && Key(x) == k
  {
    if Key(s[0]) != k || x != s[0] {
      KeyClassMembers(s[1..], k, x);
    }
  }

  lemma {:induction false} InsertKeyClass(x: string, s: seq<string>, k: nat)
    ensures KeyClass(Insert(x, s), k) == (if Key(x) == k then [x] else []) + KeyClass(s, k)
  {
    if s == [] || Key(x) <= Key(s[0]) {
      assert ([x] + s)[1..] == s;
    } else {
      InsertKeyClass(x, s[1..], k);
      assert ([s[0]] + Insert(x, s[1..]))[1..] == Insert(x, s[1..]);
    }
  }

  /** Stability: for every key, the names with that key come out in their input order. */
  lemma {:induction false} SortByKeyIsStable(s: seq<string>, k: nat)
    ensures KeyClass(SortByKey(s), k) == KeyClass(s, k)
  {
    if s != [] {
      InsertKeyClass(s[0], SortByKey(s[1..]), k);
      SortByKeyIsStable(s[1..], k);
    }
  }

  lemma NonEmptyHasKeyClass(s: seq<string>)
    requires s != []
    ensures KeyClass(s, Key(s[0])) != []
  {
  }

  lemma SortedTail(s: seq<string>)
    requires s != [] && SortedByKey(s)
    ensures SortedByKey(s[1..])
    ensures forall y :: y in s ==> Key(s[0]) <= Key(y)
  {
    forall i, j | 0 <= i < j < |s[1..]| ensures Key(s[1..][i]) <= Key(s[1..][j]) {
      assert s[1..][i] == s[i + 1] && s[1..][j] == s[j + 1];
    }
    forall y | y in s ensures Key(s[0]) <= Key(y) {
      var j :| 0 <= j < |s| && s[j] == y;
      assert j == 0 || Key(s[0]) <= Key(s[j]);
    }
  }

  /** Sorted sequences with the same key classes start with the same name. */
  lemma SameFirst(a: seq<string>, b: seq<string>)
    requires a != [] && b != []
    requires SortedByKey(a) && SortedByKey(b)
    requires KeyClass(a, Key(a[0])) == KeyClass(b, Key(a[0]))
    requires KeyClass(a, Key(b[0])) == KeyClass(b, Key(b[0]))
    ensures a[0] == b[0]
  {
    var ka, kb := Key(a[0]), Key(b[0]);
    SortedTail(a);
    SortedTail(b);
    assert KeyClass(b, kb)[0] == b[0];
    KeyClassMembers(a, kb, KeyClass(a, kb)[0]);
    assert KeyClass(a, ka)[0] == a[0];
    KeyClassMembers(b, ka, KeyClass(b, ka)[0]);
    assert ka == kb;
    assert a[0] == KeyClass(a, ka)[0] == KeyClass(b, ka)[0] == b[0];
  }

  lemma SameTailClass(a: seq<string>, b: seq<string>, k: nat)
    requires a != [] && b != [] && a[0] == b[0]
    requires KeyClass(a, k) == KeyClass(b, k)
    ensures KeyClass(a[1..], k) == KeyClass(b[1..], k)
  {
    var head := if Key(a[0]) == k then [a[0]] else [];
    assert KeyClass(a, k) == head + KeyClass(a[1..], k);
    assert KeyClass(b, k) == head + KeyClass(b[1..], k);
    assert KeyClass(a[1..], k) == KeyClass(a, k)[|head|..];
  }

  /** Two sequences sorted by key with the same names under every key are equal. */
  lemma {:induction false} StableSortIsUnique(a: seq<string>, b: seq<string>)
    requires SortedByKey(a) && SortedByKey(b)
    requires forall k :: KeyClass(a, k) == KeyClass(b, k)
    ensures a == b
  {
    if a == [] {
      if b != [] {
        NonEmptyHasKeyClass(b);
        assert false;
      }
    } else if b == [] {
      NonEmptyHasKeyClass(a);
      assert false;
    } else {
      SameFirst(a, b);
      forall k ensures KeyClass(a[1..], k) == KeyClass(b[1..], k) {
        SameTailClass(a, b, k);
      }
      SortedTail(a);
      SortedTail(b);
      StableSortIsUnique(a[1..], b[1..]);
      assert a == [a[0]] + a[1..] && b == [b[0]] + b[1..];
    }
  }

  /**
   * Whatever stable algorithm sorts the names (the engine's own `Array.prototype.sort`
   * is required to be stable), its result is the one SortByKey computes.
   */
  lemma AnyStableSortAgrees(s: seq<string>, t: seq<string>)
    requires SortedByKey(t)
    requires forall k :: KeyClass(t, k) == KeyClass(s, k)
    ensures t == SortByKey(s)
  {
    forall k ensures KeyClass(t, k) == KeyClass(SortByKey(s), k) {
      SortByKeyIsStable(s, k);
    }
    StableSortIsUnique(t, SortByKey(s));
  }

  // ---------------------------------------------------------------------------
  // `path.join(outDir, file)`
  // ---------------------------------------------------------------------------

  /** What `path.join` puts before the entry name: nothing, the directory, or the directory and a separator. */
  function DirPrefix(dir: string): (pre: string)
    ensures pre == [] || pre[|pre| - 1] == '/'
  {
    if dir == [] then []
    else if dir[|dir| - 1] == '/' then dir
    else dir + "/"
  }

  /** Joins a directory and an entry name with one separator. */
  function JoinPath(dir: string, name: string): (p: string)
    ensures |dir| <= |p| && p[..|dir|] == dir
    ensures |name| <= |p| && p[|p| - |name|..] == name
  {
    DirPrefix(dir) + name
  }

  /** The last component of a path: everything after its last separator. */
  function BaseName(p: string): (b: string)
    ensures |b| <= |p| && b == p[|p| - |b|..] && '/' !in b
    ensures |b| < |p| ==> p[|p| - |b| - 1] == '/'
  {
    if p == [] || p[|p| - 1] == '/' then []
    else
      var b' := BaseName(p[..|p| - 1]);
      assert p[..|p| - 1][|p| - 1 - |b'|..] + [p[|p| - 1]] == p[|p| - 1 - |b'|..];
      b' + [p[|p| - 1]]
  }

  /** Joining loses nothing: the entry name is the last component of the joined path. */
  lemma {:induction false} BaseNameOfJoin(dir: string, name: string)
    requires '/' !in name
    ensures BaseName(JoinPath(dir, name)) == name
  {
    var pre := DirPrefix(dir);
    if name != [] {
      var name' := name[..|name| - 1];
      var p := pre + name;
      assert p[..|p| - 1] == pre + name';
      assert p[|p| - 1] == name[|name| - 1];
      BaseNameOfJoin(dir, name');
    }
  }

  /** The work-directory paths of the page files, in the same order. */
  function PagePaths(dir: string, names: seq<string>): (r: seq<string>)
    ensures |r| == |names|
    ensures forall i :: 0 <= i < |names| ==> r[i] == JoinPath(dir, names[i])
  {
    if names == [] then [] else [JoinPath(dir, names[0])] + PagePaths(dir, names[1..])
  }

  /** The page file names, sorted: the `filter` and `sort` steps of the chain. */
  function OrderedPageNames(files: seq<string>): (r: seq<string>)
    ensures |r| == |PageEntries(files)|
    ensures SortedByKey(r)
    ensures forall f :: f in r ==> StartsWith(f, PagePrefix)
  {
    SortByKey(PageEntries(files))
  }

  /** The full chain: `files.filter(...).sort(...).map(path.join)`. */
  function ImageFiles(outDir: string, files: seq<string>): (r: seq<string>)
    ensures |r| == |PageEntries(files)|
    ensures r == [] <==> forall f :: f in files ==> !StartsWith(f, PagePrefix)
  {
    PagePaths(outDir, OrderedPageNames(files))
  }

  lemma {:induction false} KeyClassConcat(a: seq<string>, b: seq<string>, k: nat)
    ensures KeyClass(a + b, k) == KeyClass(a, k) + KeyClass(b, k)
  {
    if a != [] {
      assert (a + b)[1..] == a[1..] + b;
      KeyClassConcat(a[1..], b, k);
    } else {
      assert a + b == b;
    }
  }

  lemma {:induction false} PageEntriesConcat(a: seq<string>, b: seq<string>)
    ensures PageEntries(a + b) == PageEntries(a) + PageEntries(b)
  {
    if a != [] {
      assert (a + b)[1..] == a[1..] + b;
      PageEntriesConcat(a[1..], b);
    } else {
      assert a + b == b;
    }
  }

  /**
   * Keeping the page entries and picking one key commute: the page entries with key `k`
   * are the listing's names with key `k` that start with the prefix, in listing order.
   */
  lemma {:induction false} PageEntriesKeyClass(files: seq<string>, k: nat)
    ensures KeyClass(PageEntries(files), k) == PageEntries(KeyClass(files, k))
  {
    if files != [] {
      var f, rest := files[0], files[1..];
      var kept := if StartsWith(f, PagePrefix) then [f] else [];
      var picked := if Key(f) == k then [f] else [];
      calc {
        KeyClass(PageEntries(files), k);
      ==
        KeyClass(kept + PageEntries(rest), k);
      == { KeyClassConcat(kept, PageEntries(rest), k); }
        KeyClass(kept, k) + KeyClass(PageEntries(rest), k);
      == { PageEntriesKeyClass(rest, k); SingleFilterCommutes(f, k); }
        PageEntries(picked) + PageEntries(KeyClass(rest, k));
      == { PageEntriesConcat(picked, KeyClass(rest, k)); }
        PageEntries(picked + KeyClass(rest, k));
      ==
        PageEntries(KeyClass(files, k));
      }
    }
  }

  /** For one name, keeping page entries and picking key `k` commute. */
  lemma SingleFilterCommutes(f: string, k: nat)
    ensures KeyClass(if StartsWith(f, PagePrefix) then [f] else [], k)
         == PageEntries(if Key(f) == k then [f] else [])
  {
    assert [f][1..] == [];
  }

  /**
   * The ordered names are exactly the page entries of the listing (each as often as
   * listed, nothing else), non-decreasing by key, and for every key the page entries
   * with that key come out in the order the directory listing had them.
   */
  lemma OrderedPageNamesSpec(files: seq<string>)
    ensures forall f :: multiset(OrderedPageNames(files))[f] ==
                        if StartsWith(f, PagePrefix) then multiset(files)[f] else 0
    ensures SortedByKey(OrderedPageNames(files))
    ensures forall k :: KeyClass(OrderedPageNames(files), k) == PageEntries(KeyClass(files, k))
  {
    forall k ensures KeyClass(OrderedPageNames(files), k) == PageEntries(KeyClass(files, k)) {
      SortByKeyIsStable(PageEntries(files), k);
      PageEntriesKeyClass(files, k);
    }
  }

  /**
   * Path i names the i-th ordered page: joining keeps length and order, and the entry
   * name is recovered from its path.
   */
  lemma ImageFilesSpec(outDir: string, files: seq<string>)
    requires forall f :: f in files ==> '/' !in f
    ensures |ImageFiles(outDir, files)| == |OrderedPageNames(files)|
    ensures forall i :: 0 <= i < |ImageFiles(outDir, files)| ==>
              BaseName(ImageFiles(outDir, files)[i]) == OrderedPageNames(files)[i]
  {
    var names := OrderedPageNames(files);
    forall i | 0 <= i < |names| ensures BaseName(ImageFiles(outDir, files)[i]) == names[i] {
      assert names[i] in multiset(names);
      BaseNameOfJoin(outDir, names[i]);
    }
  }
}
