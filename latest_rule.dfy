/**
  The selection rule of `gloader.map.latest`: a scan over the keys of the
  JavaScript-path table, in their insertion order, that keeps a running
  `[major, minor, patch]` candidate and replaces it under gloader's
  JavaScript comparisons (`<=` on strings and `null`, loose `==`).
 */
module LatestRule {
  import opened Text

  /** The values the scan compares: `null`, `undefined` or a string. */
  datatype JsVal = Null | Undefined | Str(s: string)

  /** `parts[i]`, which is `undefined` past the end. */
  function PartAt(parts: seq<string>, i: nat): JsVal {
    if i < |parts| then Str(parts[i]) else Undefined
  }

  /** The string converts to the number 0 (empty or all zeros). */
  predicate IsZeroText(x: string) {
    forall i :: 0 <= i < |x| ==> x[i] == '0'
  }

  /**
    JavaScript `a <= b`: two strings compare by code units; `null` converts
    to 0 and a digit string to its value; `undefined` converts to NaN.
   */
  predicate JsLe(a: JsVal, b: JsVal) {
    match a
    case Str(x) => (match b case Str(y) => LexLe(x, y) case Null => IsZeroText(x) case Undefined => false)
    case Null => (match b case Str(y) => AllDigits(y) case Null => true case Undefined => false)
    case Undefined => false
  }

  /** JavaScript `a == b`: `null` and `undefined` are equal to each other only. */
  predicate JsLooseEq(a: JsVal, b: JsVal) {
    match a
    case Str(x) => b == Str(x)
    case _ => !b.Str?
  }

  /** The running candidate `[minor, patch]`; the major is fixed by the request. */
  datatype Pick = Pick(minor: JsVal, patch: JsVal)

  /** The version segment of a key, split on dots. */
  function VersionParts(key: string): seq<string> {
    var mp := Split(key, '/');
    if |mp| >= 2 then Split(mp[1], '.') else [""]
  }

  /**
    The key names the library's root module `lib/ver/lib`, `ver` has no
    letter and no `-`, and its first dotted part is `major`.
   */
  predicate Candidate(key: string, lib: string, major: string) {
    var mp := Split(key, '/');
    |mp| >= 3 && mp[0] == lib && mp[2] == lib && !HasInvalidVersionChar(mp[1])
    && Split(mp[1], '.')[0] == major
  }

  /** The test of one key against the candidate (no minor requested, or the requested minor). */
  predicate Takes(p: Pick, vp: seq<string>, parts: seq<string>)
    requires 1 <= |parts| <= 2
  {
    if |parts| == 1 then
      JsLe(p.minor, PartAt(vp, 1)) || (JsLooseEq(p.minor, PartAt(vp, 1)) && JsLe(p.patch, PartAt(vp, 2)))
    else
      PartAt(vp, 1) == Str(parts[1]) && JsLe(p.patch, PartAt(vp, 2))
  }

  function Step(p: Pick, key: string, lib: string, parts: seq<string>): Pick
    requires 1 <= |parts| <= 2
  {
    if Candidate(key, lib, parts[0]) && Takes(p, VersionParts(key), parts) then
      Pick(PartAt(VersionParts(key), 1), PartAt(VersionParts(key), 2))
    else p
  }

  /** The candidate after scanning `keys` in order, starting from `[major, null, null]`. */
  function Scan(keys: seq<string>, lib: string, parts: seq<string>): Pick
    requires 1 <= |parts| <= 2
    decreases |keys|
  {
    if |keys| == 0 then Pick(Null, Null)
    else Step(Scan(keys[..|keys| - 1], lib, parts), keys[|keys| - 1], lib, parts)
  }

  /** `latest.join(".")`: `null` and `undefined` join as empty text. */
  function JoinText(v: JsVal): string {
    if v.Str? then v.s else ""
  }

  /** The version part of the request has the form `maj[.min]` with integer parts. */
  predicate IsPartial(parts: seq<string>) {
    1 <= |parts| < 3 && IsIntText(parts[0]) && (|parts| == 1 || IsIntText(parts[1]))
  }

  /** What `latest(libName, v)` computes when it is not memoised, over the keys `keys`. */
  function Latest(keys: seq<string>, lib: string, v: string): (r: string)
    ensures |Split(v, '.')| >= 3 ==> r == v
    ensures !IsIntText(Split(v, '.')[0]) ==> r == v
  {
    var parts := Split(v, '.');
    if IsPartial(parts) then
      var p := Scan(keys, lib, parts);
      if p.patch.Str? then parts[0] + "." + JoinText(p.minor) + "." + p.patch.s else v
    else v
  }

  /** The scan's candidate always comes from a key it has seen. */
  predicate FromKey(p: Pick, keys: seq<string>, lib: string, parts: seq<string>)
    requires 1 <= |parts| <= 2
  {
    p == Pick(Null, Null)
    || exists j :: 0 <= j < |keys| && Candidate(keys[j], lib, parts[0])
         && p == Pick(PartAt(VersionParts(keys[j]), 1), PartAt(VersionParts(keys[j]), 2))
         && (|parts| == 2 ==> PartAt(VersionParts(keys[j]), 1) == Str(parts[1]))
  }

  lemma {:induction false} ScanFromKey(keys: seq<string>, lib: string, parts: seq<string>)
    requires 1 <= |parts| <= 2
    ensures FromKey(Scan(keys, lib, parts), keys, lib, parts)
    decreases |keys|
  {
    if |keys| > 0 {
      var n := |keys| - 1;
      var init := keys[..n];
      ScanFromKey(init, lib, parts);
      var p := Scan(init, lib, parts);
      if Candidate(keys[n], lib, parts[0]) && Takes(p, VersionParts(keys[n]), parts) {
        assert FromKey(Scan(keys, lib, parts), keys, lib, parts) by {
          var vp := VersionParts(keys[n]);
          assert |parts| == 2 ==> PartAt(vp, 1) == Str(parts[1]);
        }
      } else if p != Pick(Null, Null) {
        var j :| 0 <= j < |init| && Candidate(init[j], lib, parts[0])
          && p == Pick(PartAt(VersionParts(init[j]), 1), PartAt(VersionParts(init[j]), 2))
          && (|parts| == 2 ==> PartAt(VersionParts(init[j]), 1) == Str(parts[1]));
        assert init[j] == keys[j];
      }
    }
  }

  /**
    A changed result is `major.minor.patch` read from the key `lib/ver/lib` of
    a registered library root whose version has no letters or `-`, with the
    requested major (and the requested minor, when one is given).
   */
  lemma LatestFromKey(keys: seq<string>, lib: string, v: string)
    requires Latest(keys, lib, v) != v
    ensures exists j :: 0 <= j < |keys| && ReadFrom(keys[j], lib, v, Latest(keys, lib, v))
  {
    var parts := Split(v, '.');
    var p := Scan(keys, lib, parts);
    ScanFromKey(keys, lib, parts);
    assert p.patch.Str?;
    var j :| 0 <= j < |keys| && Candidate(keys[j], lib, parts[0])
      && p == Pick(PartAt(VersionParts(keys[j]), 1), PartAt(VersionParts(keys[j]), 2))
      && (|parts| == 2 ==> PartAt(VersionParts(keys[j]), 1) == Str(parts[1]));
    var vp := VersionParts(keys[j]);
    assert |vp| >= 3 && p.minor == Str(vp[1]) && p.patch == Str(vp[2]);
    assert ReadFrom(keys[j], lib, v, Latest(keys, lib, v));
  }

  /**
    `result` is `major.minor.patch` read from the registered key `key`, whose
    major is the requested one, as is its minor when the request names one.
   */
  predicate ReadFrom(key: string, lib: string, v: string, result: string) {
    var parts := Split(v, '.');
    var vp := VersionParts(key);
    Candidate(key, lib, parts[0]) && |vp| >= 3
    && result == parts[0] + "." + vp[1] + "." + vp[2]
    && (|parts| == 2 ==> vp[1] == parts[1])
  }

  /** Every candidate whose minor is a digit string is at most `minor` (no minor requested). */
  predicate MinorBound(keys: seq<string>, lib: string, major: string, minor: JsVal) {
    forall j :: 0 <= j < |keys| && Candidate(keys[j], lib, major)
      && |VersionParts(keys[j])| >= 2 && AllDigits(VersionParts(keys[j])[1])
      ==> minor.Str? && LexLe(VersionParts(keys[j])[1], minor.s)
  }

  lemma {:induction false} ScanNoMinor(keys: seq<string>, lib: string, parts: seq<string>)
    requires |parts| == 1
    ensures var p := Scan(keys, lib, parts);
      !p.minor.Undefined? && (p.patch.Str? ==> p.minor.Str?) && MinorBound(keys, lib, parts[0], p.minor)
    decreases |keys|
  {
    if |keys| > 0 {
      var n := |keys| - 1;
      var init := keys[..n];
      ScanNoMinor(init, lib, parts);
      var p := Scan(init, lib, parts);
      var q := Scan(keys, lib, parts);
      var k := keys[n];
      var vp := VersionParts(k);
      forall j | 0 <= j < |keys| && Candidate(keys[j], lib, parts[0])
          && |VersionParts(keys[j])| >= 2 && AllDigits(VersionParts(keys[j])[1])
        ensures q.minor.Str? && LexLe(VersionParts(keys[j])[1], q.minor.s)
      {
        var m := VersionParts(keys[j])[1];
        if j == n {
          LexLeRefl(m);
          if p.minor.Str? {
            LexLeTotal(p.minor.s, m);
          }
        } else {
          assert init[j] == keys[j];
          assert p.minor.Str? && LexLe(m, p.minor.s);
          if q != p {
            LexLeRefl(p.minor.s);
            LexLeTrans(m, p.minor.s, q.minor.s);
          }
        }
      }
    }
  }

  /** Every candidate with the requested minor and a digit-string patch is at most `patch`. */
  predicate PatchBound(keys: seq<string>, lib: string, major: string, minor: string, patch: JsVal) {
    forall j :: 0 <= j < |keys| && Candidate(keys[j], lib, major)
      && |VersionParts(keys[j])| >= 3 && VersionParts(keys[j])[1] == minor
      && AllDigits(VersionParts(keys[j])[2])
      ==> patch.Str? && LexLe(VersionParts(keys[j])[2], patch.s)
  }

  lemma {:induction false} ScanWithMinor(keys: seq<string>, lib: string, parts: seq<string>)
    requires |parts| == 2
    ensures var p := Scan(keys, lib, parts);
      !p.patch.Undefined? && PatchBound(keys, lib, parts[0], parts[1], p.patch)
    decreases |keys|
  {
    if |keys| > 0 {
      var n := |keys| - 1;
      var init := keys[..n];
      ScanWithMinor(init, lib, parts);
      var p := Scan(init, lib, parts);
      var q := Scan(keys, lib, parts);
      forall j | 0 <= j < |keys| && Candidate(keys[j], lib, parts[0])
          && |VersionParts(keys[j])| >= 3 && VersionParts(keys[j])[1] == parts[1]
          && AllDigits(VersionParts(keys[j])[2])
        ensures q.patch.Str? && LexLe(VersionParts(keys[j])[2], q.patch.s)
      {
        var x := VersionParts(keys[j])[2];
        if j == n {
          LexLeRefl(x);
          if p.patch.Str? {
            LexLeTotal(p.patch.s, x);
          }
        } else {
          assert init[j] == keys[j];
          assert p.patch.Str? && LexLe(x, p.patch.s);
          if q != p {
            LexLeRefl(p.patch.s);
            LexLeTrans(x, p.patch.s, q.patch.s);
          }
        }
      }
    }
  }

  /**
    No minor requested: a changed result's minor is, in JavaScript string
    order, at least every digit-string minor of a matching key.
   */
  lemma LatestMinorIsGreatest(keys: seq<string>, lib: string, v: string)
    requires |Split(v, '.')| == 1 && Latest(keys, lib, v) != v
    ensures exists minor: string, patch: string ::
      Latest(keys, lib, v) == v + "." + minor + "." + patch
      && forall j :: 0 <= j < |keys| && Candidate(keys[j], lib, v)
           && |VersionParts(keys[j])| >= 2 && AllDigits(VersionParts(keys[j])[1])
           ==> LexLe(VersionParts(keys[j])[1], minor)
  {
    var parts := Split(v, '.');
    assert parts == [v] by { assert Join(parts, '.') == v; }
    ScanNoMinor(keys, lib, parts);
    var p := Scan(keys, lib, parts);
    assert Latest(keys, lib, v) == v + "." + p.minor.s + "." + p.patch.s;
  }

  /**
    A minor requested: a changed result has that minor, and its patch is, in
    JavaScript string order, at least every digit-string patch of a matching key.
   */
  lemma LatestPatchIsGreatest(keys: seq<string>, lib: string, v: string)
    requires |Split(v, '.')| == 2 && Latest(keys, lib, v) != v
    ensures var parts := Split(v, '.');
      exists patch: string ::
        Latest(keys, lib, v) == parts[0] + "." + parts[1] + "." + patch
        && forall j :: 0 <= j < |keys| && Candidate(keys[j], lib, parts[0])
             && |VersionParts(keys[j])| >= 3 && VersionParts(keys[j])[1] == parts[1]
             && AllDigits(VersionParts(keys[j])[2])
             ==> LexLe(VersionParts(keys[j])[2], patch)
  {
    var parts := Split(v, '.');
    ScanWithMinor(keys, lib, parts);
    ScanFromKey(keys, lib, parts);
    var p := Scan(keys, lib, parts);
    assert p.minor == Str(parts[1]);
    assert Latest(keys, lib, v) == parts[0] + "." + parts[1] + "." + p.patch.s;
  }

  /** With no matching key the request is returned as it is. */
  lemma {:induction false} NoCandidateUnchanged(keys: seq<string>, lib: string, v: string)
    requires forall j :: 0 <= j < |keys| ==> !Candidate(keys[j], lib, Split(v, '.')[0])
    ensures Latest(keys, lib, v) == v
  {
    var parts := Split(v, '.');
    if IsPartial(parts) {
      ScanFromKey(keys, lib, parts);
    }
  }
}
