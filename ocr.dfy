/** The text side of the proof-screenshot check in src/ai.py: reading key/value lines
    out of the OCR text, parsing the "MapCodeXHashValue" proof string, the modular hash
    test, and the rejection guard of check_image.

    The image fetch and the OCR run are not modelled: check_image receives the OCR text,
    or None when the image could not be fetched or decoded. The fuzzy key matcher
    (find_best_key_match) is a parameter, and so is the secret key of the hash. */
module Ocr {
  import opened Common

  const NameKey := "name"
  const HashKey := "hash"
  const PlayedKey := "played time (in minutes)"

  /** EXPECTED_KEYS: the keys the matcher chooses from. */
  const ExpectedKeys: set<string> := {NameKey, HashKey, PlayedKey}

  /** find_best_key_match: maps a stripped OCR key to an expected key, or to None when
      the fuzzy score is below the threshold. */
  type Matcher = string -> Option<string>

  /** A matcher of the kind find_best_key_match is: it answers an expected key or None. */
  ghost predicate IntoExpectedKeys(m: Matcher) {
    forall s :: m(s).None? || m(s).value in ExpectedKeys
  }

  // ---------------------------------------------------------------------------
  // extract_ocr_data

  /** What one OCR line contributes: nothing without a ':'; otherwise the line is cut at
      its first ':', the matcher sees the stripped left part, and when it answers a key
      (a truthy one), the stripped right part is stored under it. */
  function LineEntry(line: string, m: Matcher): (r: Option<(string, string)>)
    ensures r.Some? ==> ':' in line && r.value.0 != []
  {
    if ':' in line then
      var i := IndexOf(line, ':');
      var key := m(Strip(line[..i]));
      if key.Some? && key.value != [] then Some((key.value, Strip(line[i + 1..]))) else None
    else None
  }

  /** `line.split(":", 1)` cuts at the first ':' only: a value keeps any later ':'. */
  lemma LineEntryCutsAtFirstColon(key: string, value: string, m: Matcher)
    requires ':' !in key
    ensures var k := m(Strip(key));
            LineEntry(key + ":" + value, m)
            == if k.Some? && k.value != [] then Some((k.value, Strip(value))) else None
  {
    var line := key + ":" + value;
    assert line[|key|] == ':' && line[..|key|] == key;
    assert IndexOf(line, ':') == |key|;
    assert line[|key| + 1..] == value;
  }

  /** The dictionary extract_ocr_data builds from these lines, in order. */
  function OcrData(lines: seq<string>, m: Matcher): (data: map<string, string>)
    ensures |data| <= |lines|
  {
    if lines == [] then map[]
    else
      var data := OcrData(lines[..|lines| - 1], m);
      var e := LineEntry(lines[|lines| - 1], m);
      if e.Some? then data[e.value.0 := e.value.1] else data
  }

  lemma OcrDataSnoc(lines: seq<string>, i: nat, m: Matcher)
    requires i < |lines|
    ensures var e := LineEntry(lines[i], m);
            OcrData(lines[..i + 1], m)
            == if e.Some? then OcrData(lines[..i], m)[e.value.0 := e.value.1] else OcrData(lines[..i], m)
  {
    assert lines[..i + 1][..i] == lines[..i] && lines[..i + 1][i] == lines[i];
  }

  /** extract_ocr_data: one pass over the lines of `text.split("\n")`. */
  method ExtractOcrData(text: string, m: Matcher) returns (data: map<string, string>)
    ensures data == OcrData(Split(text, '\n'), m)
  {
    var lines := Split(text, '\n');
    data := map[];
    var i := 0;
    while i < |lines|
      invariant 0 <= i <= |lines|
      invariant data == OcrData(lines[..i], m)
    {
      var line := lines[i];
      ghost var e := LineEntry(line, m);
      OcrDataSnoc(lines, i, m);
      if ':' in line {
        var cut := IndexOf(line, ':');
        var key := m(Strip(line[..cut]));
        var value := Strip(line[cut + 1..]);
        if key.Some? && key.value != [] {
          assert e == Some((key.value, value));
          data := data[key.value := value];
        } else {
          assert e.None?;
        }
      } else {
        assert e.None?;
      }
      i := i + 1;
    }
    assert lines[..i] == lines;
  }

  /** Every key of the result is an expected key, since the matcher only answers those. */
  lemma {:induction false} OcrKeysAreExpected(lines: seq<string>, m: Matcher)
    requires IntoExpectedKeys(m)
    ensures OcrData(lines, m).Keys <= ExpectedKeys
    decreases |lines|
  {
    if lines != [] {
      OcrKeysAreExpected(lines[..|lines| - 1], m);
    }
  }

  /** The line stores a value under `k`. */
  predicate Contributes(line: string, m: Matcher, k: string) {
    LineEntry(line, m).Some? && LineEntry(line, m).value.0 == k
  }

  /** A key is present exactly when some line contributed it. */
  lemma {:induction false} OcrKeyHasALine(lines: seq<string>, m: Matcher, k: string)
    ensures k in OcrData(lines, m) <==> exists i :: 0 <= i < |lines| && Contributes(lines[i], m, k)
    decreases |lines|
  {
    if lines != [] {
      var init := lines[..|lines| - 1];
      var last := lines[|lines| - 1];
      OcrKeyHasALine(init, m, k);
      if k in OcrData(init, m) {
        var i :| 0 <= i < |init| && Contributes(init[i], m, k);
        assert lines[i] == init[i];
      } else if Contributes(last, m, k) {
        assert lines[|lines| - 1] == last;
      } else {
        forall i | 0 <= i < |lines| ensures !Contributes(lines[i], m, k) {
          if i < |init| {
            assert init[i] == lines[i];
          }
        }
      }
    }
  }

  /** Later lines overwrite earlier ones: the stored value is the one of the last line
      that contributed the key. */
  lemma {:induction false} OcrLastLineWins(lines: seq<string>, m: Matcher, i: nat, k: string, v: string)
    requires i < |lines| && LineEntry(lines[i], m) == Some((k, v))
    requires forall j :: i < j < |lines| ==> !Contributes(lines[j], m, k)
    ensures k in OcrData(lines, m) && OcrData(lines, m)[k] == v
    decreases |lines|
  {
    var init := lines[..|lines| - 1];
    if i < |lines| - 1 {
      forall j | i < j < |init| ensures !Contributes(init[j], m, k) {
        assert init[j] == lines[j];
      }
      assert init[i] == lines[i];
      OcrLastLineWins(init, m, i, k, v);
    }
  }

  // ---------------------------------------------------------------------------
  // extract_mapcode_hash_playedtime

  /** The ASCII digits of `s`, in order (the `c in "0123456789"` filter). */
  function Digits(s: string): (d: string)
    ensures |d| <= |s|
    ensures forall i :: 0 <= i < |d| ==> IsDigit(d[i])
  {
    if s == [] then []
    else if IsDigit(s[0]) then [s[0]] + Digits(s[1..])
    else Digits(s[1..])
  }

  function DigitValue(c: char): (v: nat)
    requires IsDigit(c)
    ensures v < 10
  {
    (c as int - '0' as int) as nat
  }

  /** Python's `int` of a non-empty string of ASCII digits. */
  function DecimalValue(d: string): nat
    requires forall i :: 0 <= i < |d| ==> IsDigit(d[i])
  {
    if d == [] then 0 else DecimalValue(d[..|d| - 1]) * 10 + DigitValue(d[|d| - 1])
  }

  /** The result of extract_mapcode_hash_playedtime, or the TypeError it raises. The
      played time argument is None when the OCR data has no played-time key: check_image
      then passes the integer 0, which cannot be iterated. */
  datatype Extraction =
    | Fields(mapCode: nat, hash: nat, played: nat)
    | NoneTriple
    | RaisesTypeError

  /** extract_mapcode_hash_playedtime. A ValueError (not exactly one 'X', or a part with
      no digits, so that `int("")` fails) is caught and gives the None triple; iterating
      a non-string played time raises a TypeError that is not caught. */
  function ExtractProof(proof: string, played: Option<string>): (r: Extraction)
    ensures var parts := Split(proof, 'X');
            r.Fields? <==> |parts| == 2 && Digits(parts[0]) != [] && Digits(parts[1]) != []
                           && played.Some? && Digits(played.value) != []
    ensures r.RaisesTypeError? <==> |Split(proof, 'X')| == 2 && Digits(Split(proof, 'X')[0]) != []
                                    && Digits(Split(proof, 'X')[1]) != [] && played.None?
  {
    var parts := Split(proof, 'X');
    if |parts| != 2 then NoneTriple
    else
      var m, h := Digits(parts[0]), Digits(parts[1]);
      if m == [] || h == [] then NoneTriple
      else if played.None? then RaisesTypeError
      else
        var p := Digits(played.value);
        if p == [] then NoneTriple else Fields(DecimalValue(m), DecimalValue(h), DecimalValue(p))
  }

  lemma DigitsOfDigits(s: string)
    requires forall i :: 0 <= i < |s| ==> IsDigit(s[i])
    ensures Digits(s) == s
  {
  }

  /** Characters other than the ten ASCII digits are dropped without trace. */
  lemma {:induction false} DigitsSkipNoise(a: string, c: char, b: string)
    requires !IsDigit(c)
    ensures Digits(a + [c] + b) == Digits(a + b)
    decreases |a|
  {
    if a != [] {
      assert (a + [c] + b)[1..] == a[1..] + [c] + b;
      assert (a + b)[1..] == a[1..] + b;
      DigitsSkipNoise(a[1..], c, b);
    } else {
      assert a + [c] + b == [c] + b && a + b == b;
      assert ([c] + b)[1..] == b;
    }
  }

  lemma {:induction false} DecimalValueOfNatToString(n: nat)
    ensures DecimalValue(NatToString(n)) == n
    decreases n
  {
    if n >= 10 {
      var s := NatToString(n);
      assert s[..|s| - 1] == NatToString(n / 10);
      DecimalValueOfNatToString(n / 10);
    }
  }

  /** The proof string the time tracker shows, "{map code}X{hash}", with a played time
      in minutes, parses back to the three numbers. */
  lemma ExtractProofRoundTrip(m: nat, h: nat, p: nat)
    ensures ExtractProof(NatToString(m) + "X" + NatToString(h), Some(NatToString(p))) == Fields(m, h, p)
  {
    var ms, hs := NatToString(m), NatToString(h);
    assert 'X' !in ms && 'X' !in hs;
    SplitAtSeparator(ms, hs, 'X');
    SplitNoSeparator(hs, 'X');
    DigitsOfDigits(ms);
    DigitsOfDigits(hs);
    DigitsOfDigits(NatToString(p));
    DecimalValueOfNatToString(m);
    DecimalValueOfNatToString(h);
    DecimalValueOfNatToString(p);
  }

  // ---------------------------------------------------------------------------
  // verify_hash

  const HashModulus := 3456789

  /** verify_hash with the secret key as a parameter. Python's `%` by a positive modulus
      is never negative, as Dafny's, so a provided hash outside 0..3456788 is never
      accepted. */
  function VerifyHash(mapCode: int, playTime: int, provided: int, key: int): (ok: bool)
    ensures ok ==> 0 <= provided < HashModulus
  {
    ((mapCode * 134569 + playTime * 456781) + key) % HashModulus == provided
  }

  /** For a map code and a played time exactly one hash is accepted. */
  lemma VerifyHashUnique(mapCode: int, playTime: int, h1: int, h2: int, key: int)
    requires VerifyHash(mapCode, playTime, h1, key) && VerifyHash(mapCode, playTime, h2, key)
    ensures h1 == h2
  {
  }

  lemma VerifyHashHasWitness(mapCode: int, playTime: int, key: int)
    ensures exists h :: 0 <= h < HashModulus && VerifyHash(mapCode, playTime, h, key)
  {
    var h := ((mapCode * 134569 + playTime * 456781) + key) % HashModulus;
    assert VerifyHash(mapCode, playTime, h, key);
  }

  // ---------------------------------------------------------------------------
  // check_image

  datatype CheckResult =
    | Rejected(error: string)
    | Checked(validHash: bool, playedTime: nat)
    | RaisesTypeErrorOut

  /** `extract_mapcode_hash_playedtime(data.get("hash", ""), data.get("played time (in minutes)", 0))`:
      a missing played time is the integer 0, on which the digit filter raises. */
  function DataProof(data: map<string, string>): Extraction {
    ExtractProof(if HashKey in data then data[HashKey] else "",
                 if PlayedKey in data then Some(data[PlayedKey]) else None)
  }

  /** check_image after the OCR run: `text` is the OCR text, or None when the image
      could not be fetched. The guard rejects empty data, the None triple and a played
      time of 0 before the hash is verified. */
  function CheckImage(text: Option<string>, m: Matcher, key: int): (r: CheckResult)
    ensures text.None? ==> r == Rejected("Image could not be processed")
    ensures text.Some? && OcrData(Split(text.value, '\n'), m) == map[] ==> r == Rejected("Invalid format")
    ensures text.Some? && OcrData(Split(text.value, '\n'), m) != map[] ==>
              var e := DataProof(OcrData(Split(text.value, '\n'), m));
              && (r.Checked? <==> e.Fields? && e.played > 0)
              && (r == RaisesTypeErrorOut <==> e.RaisesTypeError?)
              && (e.NoneTriple? || (e.Fields? && e.played == 0) ==> r == Rejected("Incomplete or incorrect data"))
              && (r.Checked? ==> r == Checked(VerifyHash(e.mapCode, e.played, e.hash, key), e.played))
    ensures r.Checked? ==> r.playedTime > 0
    ensures r.Checked? ==> var data := OcrData(Split(text.value, '\n'), m);
                           HashKey in data && PlayedKey in data
  {
    if text.None? then Rejected("Image could not be processed")
    else
      var data := OcrData(Split(text.value, '\n'), m);
      if data == map[] then Rejected("Invalid format")
      else
        match DataProof(data)
        case RaisesTypeError => RaisesTypeErrorOut
        case NoneTriple => Rejected("Incomplete or incorrect data")
        case Fields(mc, h, p) =>
          if p == 0 then Rejected("Incomplete or incorrect data")
          else Checked(VerifyHash(mc, p, h, key), p)
  }

  /** A screenshot whose text holds the proof string and the played time, on lines whose
      captions the matcher reads as the hash and played-time keys, is accepted exactly
      when the hash is the one the time tracker computes; a played time of 0 is rejected. */
  lemma CheckImageOfProofLines(m: Matcher, key: int, hashCaption: string, playedCaption: string,
                               mc: nat, h: nat, p: nat)
    requires m(hashCaption) == Some(HashKey) && m(playedCaption) == Some(PlayedKey)
    requires Strip(hashCaption) == hashCaption && Strip(playedCaption) == playedCaption
    requires ':' !in hashCaption && '\n' !in hashCaption && ':' !in playedCaption && '\n' !in playedCaption
    ensures var text := (hashCaption + ": " + (NatToString(mc) + "X" + NatToString(h)))
                        + "\n" + (playedCaption + ": " + NatToString(p));
            var r := CheckImage(Some(text), m, key);
            && (p > 0 ==> r == Checked(VerifyHash(mc, p, h, key), p))
            && (p == 0 ==> r == Rejected("Incomplete or incorrect data"))
  {
    var proof := NatToString(mc) + "X" + NatToString(h);
    var pt := NatToString(p);
    var l1, l2 := hashCaption + ": " + proof, playedCaption + ": " + pt;
    LabelledLine(m, hashCaption, HashKey, proof);
    LabelledLine(m, playedCaption, PlayedKey, pt);
    assert '\n' !in l1 && '\n' !in l2;
    TwoLines(l1, l2);
    TwoLineData(l1, l2, m, HashKey, proof, PlayedKey, pt);
    CheckImageOfData(l1 + "\n" + l2, m, key, mc, h, p);
  }

  lemma CheckImageOfData(text: string, m: Matcher, key: int, mc: nat, h: nat, p: nat)
    requires OcrData(Split(text, '\n'), m) == map[HashKey := NatToString(mc) + "X" + NatToString(h)][PlayedKey := NatToString(p)]
    ensures var r := CheckImage(Some(text), m, key);
            && (p > 0 ==> r == Checked(VerifyHash(mc, p, h, key), p))
            && (p == 0 ==> r == Rejected("Incomplete or incorrect data"))
  {
    var data := OcrData(Split(text, '\n'), m);
    var proof := NatToString(mc) + "X" + NatToString(h);
    assert HashKey in data && data[HashKey] == proof;
    assert PlayedKey in data && data[PlayedKey] == NatToString(p);
    ExtractProofRoundTrip(mc, h, p);
    assert ExtractProof(data[HashKey], Some(data[PlayedKey])) == Fields(mc, h, p);
  }

  /** A line "{caption}: {value}" whose caption the matcher reads as `k` stores `value`. */
  lemma LabelledLine(m: Matcher, caption: string, k: string, value: string)
    requires ':' !in caption && Strip(caption) == caption && m(caption) == Some(k) && k != []
    requires value != [] && !IsSpace(value[0]) && !IsSpace(value[|value| - 1])
    ensures LineEntry(caption + ": " + value, m) == Some((k, value))
  {
    assert caption + ": " + value == caption + ":" + (" " + value);
    LineEntryCutsAtFirstColon(caption, " " + value, m);
    StripDigits(value);
  }

  lemma TwoLineData(l1: string, l2: string, m: Matcher, k1: string, v1: string, k2: string, v2: string)
    requires LineEntry(l1, m) == Some((k1, v1)) && LineEntry(l2, m) == Some((k2, v2))
    ensures OcrData([l1, l2], m) == map[k1 := v1][k2 := v2]
  {
    var two := [l1, l2];
    assert two[..1] == [l1] && [l1][..0] == [] && two[1] == l2 && [l1][0] == l1;
    assert OcrData([], m) == map[];
    assert OcrData([l1], m) == map[k1 := v1];
  }

  lemma TwoLines(l1: string, l2: string)
    requires '\n' !in l1 && '\n' !in l2
    ensures Split(l1 + "\n" + l2, '\n') == [l1, l2]
  {
    SplitAtSeparator(l1, l2, '\n');
    SplitNoSeparator(l2, '\n');
  }

  /** Stripping " " from in front of text that has no spaces at its ends. */
  lemma StripDigits(s: string)
    requires s != [] && !IsSpace(s[0]) && !IsSpace(s[|s| - 1])
    ensures Strip(" " + s) == s
  {
    var t := " " + s;
    assert t[1..] == s;
    assert TrimLeft(t) == TrimLeft(s);
    assert TrimLeft(s) == s;
    assert TrimRight(s) == s;
  }
}
