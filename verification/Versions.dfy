/** Protocol versions: how they are written, how a reply is compared, and the ladder of candidates. */
module Versions {
  import opened Wire

  const DEFAULT_MAJOR := 1
  const DEFAULT_MINOR := 28
  const MIN_SUPPORTED_MINOR := 22

  datatype Version = Version(major: int, minor: int)

  /** The bytes of an ASCII text. */
  function Ascii(s: string): bytes {
    seq(|s|, i requires 0 <= i < |s| => (s[i] as int) % 0x80)
  }

  // Decimal numbers.

  function Digits(n: nat): bytes {
    if n < 10 then [48 + n] else Digits(n / 10) + [48 + n % 10]
  }

  function Itoa(n: int): bytes { if n < 0 then [45] + Digits(-n) else Digits(n) }

  const DOT := 46

  function Render(v: Version): bytes { Itoa(v.major) + [DOT] + Itoa(v.minor) }

  predicate Numeral(b: bytes) { forall i :: 0 <= i < |b| ==> 48 <= b[i] <= 57 || b[i] == 45 }

  lemma {:induction false} DigitsAreDigits(n: nat)
    ensures Digits(n) != [] && forall i :: 0 <= i < |Digits(n)| ==> 48 <= Digits(n)[i] <= 57
    decreases n
  {
    if n >= 10 {
      DigitsAreDigits(n / 10);
    }
  }

  lemma {:induction false} DigitsInjective(m: nat, n: nat)
    requires Digits(m) == Digits(n)
    ensures m == n
    decreases m
  {
    var a, b := Digits(m), Digits(n);
    if m >= 10 {
      DigitsAreDigits(m / 10);
      assert |a| > 1;
      assert n >= 10;
      assert a[..|a| - 1] == Digits(m / 10) && b[..|b| - 1] == Digits(n / 10);
      assert a[|a| - 1] == 48 + m % 10 && b[|b| - 1] == 48 + n % 10;
      DigitsInjective(m / 10, n / 10);
    } else if n >= 10 {
      DigitsAreDigits(n / 10);
      assert false;
    } else {
      assert a[0] == 48 + m && b[0] == 48 + n;
    }
  }

  lemma ItoaNumeral(n: int)
    ensures Numeral(Itoa(n))
  {
    DigitsAreDigits(if n < 0 then -n else n);
  }

  lemma ItoaInjective(m: int, n: int)
    requires Itoa(m) == Itoa(n)
    ensures m == n
  {
    var a, b := if m < 0 then -m else m, if n < 0 then -n else n;
    DigitsAreDigits(a);
    DigitsAreDigits(b);
    assert Itoa(m)[0] == Itoa(n)[0];
    assert m < 0 <==> n < 0;
    if m < 0 {
      assert Itoa(m)[1..] == Digits(a) && Itoa(n)[1..] == Digits(b);
    }
    DigitsInjective(a, b);
  }

  /** The dot stands where the first numeral ends. */
  lemma DotSplits(a: bytes, b: bytes, c: bytes, d: bytes)
    requires Numeral(a) && Numeral(c) && a + [DOT] + b == c + [DOT] + d
    ensures a == c && b == d
  {
    var s, t := a + [DOT] + b, c + [DOT] + d;
    assert s[|a|] == DOT && t[|c|] == DOT;
    if |a| < |c| {
      assert false;
    }
    if |c| < |a| {
      assert false;
    }
    assert s[..|a|] == a && t[..|c|] == c;
    assert s[|a| + 1..] == b && t[|c| + 1..] == d;
  }

  lemma RenderInjective(v: Version, w: Version)
    requires Render(v) == Render(w)
    ensures v == w
  {
    ItoaNumeral(v.major);
    ItoaNumeral(w.major);
    DotSplits(Itoa(v.major), Itoa(v.minor), Itoa(w.major), Itoa(w.minor));
    ItoaInjective(v.major, w.major);
    ItoaInjective(v.minor, w.minor);
  }

  // Case folding against an ASCII text, as UTF-8 bytes. Besides its other case, the letter s also equals the
  // long s (C5 BF) and the letter k the Kelvin sign (E2 84 AA).

  function Lower(c: u8): u8 { if 65 <= c <= 90 then c + 32 else c }

  predicate EqualFold(b: bytes, text: bytes)
    decreases |text|
  {
    if text == [] then b == []
    else if b == [] then false
    else if b[0] < 0x80 then Lower(b[0]) == Lower(text[0]) && EqualFold(b[1..], text[1..])
    else if [0xC5, 0xBF] <= b then Lower(text[0]) == 115 && EqualFold(b[2..], text[1..])
    else if [0xE2, 0x84, 0xAA] <= b then Lower(text[0]) == 107 && EqualFold(b[3..], text[1..])
    else false
  }

  lemma {:induction false} FoldOnce(b: bytes, s: bytes, t: bytes)
    requires EqualFold(b, s) && EqualFold(b, t)
    ensures |s| == |t| && forall i :: 0 <= i < |s| ==> Lower(s[i]) == Lower(t[i])
    decreases |s|
  {
    if s != [] && t != [] {
      var k := if b[0] < 0x80 then 1 else if [0xC5, 0xBF] <= b then 2 else 3;
      FoldOnce(b[k..], s[1..], t[1..]);
      forall i | 0 < i < |s| ensures Lower(s[i]) == Lower(t[i]) {
        assert s[i] == s[1..][i - 1] && t[i] == t[1..][i - 1];
      }
    }
  }

  lemma {:induction false} FoldsItself(s: bytes)
    requires forall i :: 0 <= i < |s| ==> s[i] < 0x80
    ensures EqualFold(s, s)
    decreases |s|
  {
    if s != [] {
      FoldsItself(s[1..]);
    }
  }

  /** The same letter, in whichever case, or the same character. */
  predicate SameLetter(x: u8, y: u8) { x == y || (65 <= x <= 90 && y == x + 32) || (65 <= y <= 90 && x == y + 32) }

  /** An ASCII reply is accepted for an ASCII text exactly when they differ at most in the case of letters. */
  lemma {:induction false} FoldsCase(b: bytes, text: bytes)
    requires (forall i :: 0 <= i < |b| ==> b[i] < 0x80) && forall i :: 0 <= i < |text| ==> text[i] < 0x80
    ensures EqualFold(b, text) <==> |b| == |text| && forall i :: 0 <= i < |b| ==> SameLetter(b[i], text[i])
    decreases |text|
  {
    if text != [] && b != [] {
      FoldsCase(b[1..], text[1..]);
      assert Lower(b[0]) == Lower(text[0]) <==> SameLetter(b[0], text[0]);
      if |b| == |text| && forall i :: 0 <= i < |b[1..]| ==> SameLetter(b[1..][i], text[1..][i]) {
        forall i | 0 < i < |b| ensures SameLetter(b[i], text[i]) {
          assert b[i] == b[1..][i - 1] && text[i] == text[1..][i - 1];
        }
      }
    }
  }

  function VersionCommand(v: Version): bytes { Ascii("Version ") + Render(v) }

  function VersionReply(v: Version): bytes { Ascii("Version set to ") + Render(v) }

  lemma RenderPlain(v: Version)
    ensures forall i :: 0 <= i < |Render(v)| ==> Render(v)[i] < 0x80 && Lower(Render(v)[i]) == Render(v)[i]
  {
    ItoaNumeral(v.major);
    ItoaNumeral(v.minor);
  }

  /** One reply confirms one version at most. */
  lemma ReplyNamesOneVersion(b: bytes, v: Version, w: Version)
    requires EqualFold(b, VersionReply(v)) && EqualFold(b, VersionReply(w))
    ensures v == w
  {
    var s, t, n := VersionReply(v), VersionReply(w), |Ascii("Version set to ")|;
    FoldOnce(b, s, t);
    RenderPlain(v);
    RenderPlain(w);
    forall i | 0 <= i < |Render(v)| ensures Render(v)[i] == Render(w)[i] {
      assert s[n + i] == Render(v)[i] && t[n + i] == Render(w)[i];
    }
    assert Render(v) == Render(w);
    RenderInjective(v, w);
  }

  /** The reply for a version confirms it. */
  lemma ReplyConfirms(v: Version)
    ensures EqualFold(VersionReply(v), VersionReply(v))
  {
    RenderPlain(v);
    FoldsItself(VersionReply(v));
  }

  // The ladder.

  /** Versions 1.minor down to 1.22, without those that are not below a request of major version 1. */
  function Below(want: Version, minor: int): seq<Version>
    decreases minor
  {
    if minor < MIN_SUPPORTED_MINOR then []
    else (if want.major == DEFAULT_MAJOR && minor >= want.minor then [] else [Version(DEFAULT_MAJOR, minor)])
         + Below(want, minor - 1)
  }

  function Ladder(want: Version, negotiate: bool): seq<Version> {
    [want] + if negotiate then Below(want, DEFAULT_MINOR) else []
  }

  predicate Less(v: Version, w: Version) { v.major < w.major || (v.major == w.major && v.minor < w.minor) }

  predicate Descending(vs: seq<Version>) { forall i, j :: 0 <= i < j < |vs| ==> Less(vs[j], vs[i]) }

  predicate Listed(want: Version, v: Version) {
    v.major == 1 && 22 <= v.minor <= 28 && (want.major == 1 ==> v.minor < want.minor)
  }

  lemma {:induction false} BelowExact(want: Version, minor: int)
    requires minor <= DEFAULT_MINOR
    ensures forall v :: v in Below(want, minor) <==> Listed(want, v) && v.minor <= minor
    ensures Descending(Below(want, minor))
    decreases minor
  {
    if minor >= MIN_SUPPORTED_MINOR {
      BelowExact(want, minor - 1);
    }
  }

  lemma LadderTail(want: Version)
    ensures var all := Ladder(want, true);
      (forall i :: 0 < i < |all| ==> Listed(want, all[i])) && Descending(all[1..])
    ensures forall v :: v in Ladder(want, true) <==> v == want || Listed(want, v)
  {
    BelowExact(want, DEFAULT_MINOR);
    var below, all := Below(want, DEFAULT_MINOR), Ladder(want, true);
    assert all[1..] == below;
    forall i | 0 < i < |all| ensures Listed(want, all[i]) {
      assert all[i] in below;
    }
  }

  /** The ladder holds the request and every supported version below it, nothing else and nothing twice. */
  lemma LadderExact(want: Version, negotiate: bool)
    ensures forall v :: v in Ladder(want, negotiate) <==> v == want || (negotiate && Listed(want, v))
    ensures forall i, j :: 0 <= i < j < |Ladder(want, negotiate)| ==>
      Ladder(want, negotiate)[i] != Ladder(want, negotiate)[j]
  {
    LadderTail(want);
    var all := Ladder(want, negotiate);
    forall i, j | 0 <= i < j < |all| ensures all[i] != all[j] {
      if i > 0 {
        assert Less(all[1..][j - 1], all[1..][i - 1]);
      } else {
        assert Listed(want, all[j]);
      }
    }
  }

  /** It descends exactly when the request has major version 1 or more or nothing else is tried. */
  lemma LadderDescends(want: Version, negotiate: bool)
    ensures Descending(Ladder(want, negotiate)) <==> want.major >= DEFAULT_MAJOR || !negotiate
  {
    hide Below;
    var all := Ladder(want, negotiate);
    if negotiate {
      LadderTail(want);
      if want.major < DEFAULT_MAJOR {
        var top := Version(DEFAULT_MAJOR, DEFAULT_MINOR);
        assert top in all && top != want;
        assert !Less(all[1], all[0]);
      } else {
        forall i, j | 0 <= i < j < |all| ensures Less(all[j], all[i]) {
          if i > 0 {
            assert Less(all[1..][j - 1], all[1..][i - 1]);
          }
        }
      }
    }
  }
}
