/** The text input's as-you-type rewriting: a full name keeps only letters
    and spaces, a phone number keeps at most ten digits, and a date's year
    is cut to four characters. */
module TextField {
  import opened JsValue

  predicate IsNameChar(c: char) {
    ('a' <= c <= 'z') || ('A' <= c <= 'Z') || c == ' '
  }

  /** `r` can be read off `s` by skipping characters: it is a subsequence,
      matched greedily from the left. */
  predicate Subsequence(r: string, s: string)
    decreases |s|
  {
    if r == [] then true
    else if s == [] then false
    else if r[0] == s[0] then Subsequence(r[1..], s[1..])
    else Subsequence(r, s[1..])
  }

  /** How many times `c` occurs in `s`. */
  function Count(s: string, c: char): nat {
    if s == [] then 0 else (if s[0] == c then 1 else 0) + Count(s[1..], c)
  }

  /** Skipping characters never adds any. */
  lemma {:induction false} SubsequenceCount(r: string, s: string, c: char)
    requires Subsequence(r, s)
    ensures Count(r, c) <= Count(s, c)
    decreases |s|
  {
    if r != [] {
      if r[0] == s[0] {
        SubsequenceCount(r[1..], s[1..], c);
      } else {
        SubsequenceCount(r, s[1..], c);
      }
    }
  }

  /** The characters of `s` that `keep` accepts, in order: a subsequence of
      `s` made of accepted characters that keeps every accepted character
      as often as `s` has it. */
  function KeepChars(s: string, keep: char -> bool): (r: string)
    ensures |r| <= |s|
    ensures forall i :: 0 <= i < |r| ==> keep(r[i])
    ensures Subsequence(r, s)
    ensures forall c :: keep(c) ==> Count(r, c) == Count(s, c)
    ensures (forall i :: 0 <= i < |s| ==> keep(s[i])) ==> r == s
    ensures (forall i :: 0 <= i < |s| ==> !keep(s[i])) ==> r == []
  {
    if s == [] then []
    else
      var rest := KeepChars(s[1..], keep);
      KeepCharsStep(s, keep, rest);
      if keep(s[0]) then [s[0]] + rest else rest
  }

  /** One step of KeepChars: deciding on the first character keeps the
      subsequence and the counts of the accepted characters. */
  lemma KeepCharsStep(s: string, keep: char -> bool, rest: string)
    requires s != []
    requires forall i :: 0 <= i < |rest| ==> keep(rest[i])
    requires Subsequence(rest, s[1..])
    requires forall c :: keep(c) ==> Count(rest, c) == Count(s[1..], c)
    ensures var r := if keep(s[0]) then [s[0]] + rest else rest;
      && Subsequence(r, s)
      && forall c :: keep(c) ==> Count(r, c) == Count(s, c)
  {
    if keep(s[0]) {
      var r := [s[0]] + rest;
      assert r[0] == s[0] && r[1..] == rest;
    } else if rest != [] {
      assert keep(rest[0]);
    }
  }

  /** The contract of KeepChars pins its result down: any subsequence of
      `s` made of accepted characters and keeping every accepted character
      is the filtered string. */
  lemma {:induction false} KeepCharsUnique(r: string, s: string, keep: char -> bool)
    requires Subsequence(r, s)
    requires forall i :: 0 <= i < |r| ==> keep(r[i])
    requires forall c :: keep(c) ==> Count(r, c) == Count(s, c)
    ensures r == KeepChars(s, keep)
    decreases |s|
  {
    if s == [] {
      return;
    }
    if keep(s[0]) {
      if r == [] {
        assert false;
      } else if r[0] != s[0] {
        SubsequenceCount(r, s[1..], s[0]);
        assert false;
      }
      KeepCharsUnique(r[1..], s[1..], keep);
      assert r == [r[0]] + r[1..];
    } else {
      if r != [] {
        assert r[0] != s[0];
      }
      KeepCharsUnique(r, s[1..], keep);
    }
  }

  /** Filtering works piece by piece: with the one-character cases this
      pins the result down as the subsequence of kept characters. */
  lemma {:induction false} KeepCharsAppend(a: string, b: string, keep: char -> bool)
    ensures KeepChars(a + b, keep) == KeepChars(a, keep) + KeepChars(b, keep)
  {
    if a == [] {
      assert a + b == b;
    } else {
      assert (a + b)[0] == a[0];
      assert (a + b)[1..] == a[1..] + b;
      KeepCharsAppend(a[1..], b, keep);
    }
  }

  /** `raw.replace(/[^a-zA-Z ]+/g, "")`. */
  function SanitizeFullName(raw: string): (r: string)
    ensures |r| <= |raw|
    ensures forall i :: 0 <= i < |r| ==> IsNameChar(r[i])
    ensures Subsequence(r, raw)
    ensures forall c :: IsNameChar(c) ==> Count(r, c) == Count(raw, c)
    ensures (forall i :: 0 <= i < |raw| ==> IsNameChar(raw[i])) ==> r == raw
  {
    KeepChars(raw, IsNameChar)
  }

  /** Sanitising a sanitised name changes nothing. */
  lemma SanitizeFullNameIdempotent(raw: string)
    ensures SanitizeFullName(SanitizeFullName(raw)) == SanitizeFullName(raw)
  {
  }

  /** The digits of `raw`, in order. */
  function Digits(raw: string): (r: string)
    ensures |r| <= |raw| && AllDigits(r)
    ensures Subsequence(r, raw)
    ensures forall c :: IsDigit(c) ==> Count(r, c) == Count(raw, c)
    ensures AllDigits(raw) ==> r == raw
  {
    KeepChars(raw, IsDigit)
  }

  /** `raw.replace(/[^0-9]/g, "").slice(0, 10)`. */
  function SanitizePhone(raw: string): (r: string)
    ensures |r| <= 10 && AllDigits(r)
    ensures |r| == if |Digits(raw)| < 10 then |Digits(raw)| else 10
    ensures r == Digits(raw)[..|r|]
  {
    var d := Digits(raw);
    if |d| <= 10 then d else d[..10]
  }

  /** Sanitising a sanitised phone number changes nothing. */
  lemma SanitizePhoneIdempotent(raw: string)
    ensures SanitizePhone(SanitizePhone(raw)) == SanitizePhone(raw)
  {
  }

  /** `parts[i] ? "-" + parts[i] : ""`: a piece re-attached after the year. */
  function DashPiece(parts: seq<string>, i: nat): (r: string)
    ensures r == [] || r[0] == '-'
  {
    if i < |parts| && parts[i] != "" then "-" + parts[i] else ""
  }

  /** The date rewrite: with the value split on "-", a first piece longer
      than four characters is cut to four, the second and third pieces are
      re-attached when non-empty, and later pieces are dropped; any other
      value is kept. */
  function LimitYear(raw: string): string {
    var parts := SplitOn(raw, '-');
    if |parts[0]| > 4 then parts[0][..4] + DashPiece(parts, 1) + DashPiece(parts, 2)
    else raw
  }

  /** After the rewrite the year has at most four characters. */
  lemma LimitYearCutsYear(raw: string)
    ensures |Before(LimitYear(raw), '-')| <= 4
  {
    var parts := SplitOn(raw, '-');
    if |parts[0]| > 4 {
      var year := parts[0][..4];
      assert '-' !in year by {
        assert forall i :: 0 <= i < 4 ==> year[i] == parts[0][i];
      }
      YearBeforeTail(year, DashPiece(parts, 1), DashPiece(parts, 2));
    }
  }

  /** After the rewrite the year has at most four characters; a year of at
      most four characters is left alone; a full YYYYY-MM-DD value keeps its
      month and day. */
  lemma LimitYearSpec(raw: string)
    ensures |Before(LimitYear(raw), '-')| <= 4
    ensures |Before(raw, '-')| <= 4 ==> LimitYear(raw) == raw
    ensures var parts := SplitOn(raw, '-');
      |parts[0]| > 4 && |parts| == 3 && parts[1] != "" && parts[2] != "" ==>
        LimitYear(raw) == parts[0][..4] + "-" + parts[1] + "-" + parts[2]
  {
    LimitYearCutsYear(raw);
  }

  /** A separator-free year followed by pieces that each are empty or start
      with "-" is what the year search finds. */
  lemma YearBeforeTail(year: string, month: string, day: string)
    requires '-' !in year
    requires month == [] || month[0] == '-'
    requires day == [] || day[0] == '-'
    ensures Before(year + month + day, '-') == year
  {
    var tail := month + day;
    assert year + month + day == year + tail;
    BeforeIsPrefix(year, tail, '-');
    if tail == [] {
      assert year + tail == year + [];
      BeforeIsPrefix(year, [], '-');
    } else if month != [] {
      assert tail[0] == month[0];
    } else {
      assert tail == day;
    }
  }

  /** Rewriting a rewritten date changes nothing. */
  lemma LimitYearIdempotent(raw: string)
    ensures LimitYear(LimitYear(raw)) == LimitYear(raw)
  {
    LimitYearSpec(raw);
    LimitYearSpec(LimitYear(raw));
  }

  /** `handleValueChange(raw)`: the value passed on to `onChange`. The rules
      apply by field id first (fullName, then phone), then to date inputs
      with a non-empty value; everything else passes through. */
  function HandleValueChange(id: string, isDate: bool, raw: string): (r: string)
    ensures id == "fullName" ==> r == SanitizeFullName(raw)
    ensures id == "phone" ==> r == SanitizePhone(raw)
    ensures id != "fullName" && id != "phone" && isDate ==> r == LimitYear(raw)
    ensures id != "fullName" && id != "phone" && !isDate ==> r == raw
  {
    if id == "fullName" then SanitizeFullName(raw)
    else if id == "phone" then SanitizePhone(raw)
    else if isDate && raw != "" then LimitYear(raw)
    else raw
  }

  /** Typing the value the input already shows changes nothing: each rule's
      output is left alone by the same rule. */
  lemma HandleValueChangeIdempotent(id: string, isDate: bool, raw: string)
    ensures HandleValueChange(id, isDate, HandleValueChange(id, isDate, raw)) == HandleValueChange(id, isDate, raw)
  {
    if id == "fullName" {
      SanitizeFullNameIdempotent(raw);
    } else if id == "phone" {
      SanitizePhoneIdempotent(raw);
    } else if isDate {
      LimitYearIdempotent(raw);
    }
  }

  /** Kept text around a stretch of rejected text: the stretch is dropped
      and the rest is joined up. */
  lemma {:induction false} DropStretch(a: string, b: string, c: string, keep: char -> bool)
    requires forall i :: 0 <= i < |a| ==> keep(a[i])
    requires forall i :: 0 <= i < |b| ==> !keep(b[i])
    requires forall i :: 0 <= i < |c| ==> keep(c[i])
    ensures KeepChars(a + b + c, keep) == a + c
  {
    KeepCharsAppend(a + b, c, keep);
    KeepCharsAppend(a, b, keep);
  }

  /** The component's own examples, with the inputs written in kept and
      dropped pieces: "John123@ Doe!" becomes "John Doe", and
      "12345abc67890" becomes "1234567890". */
  lemma FullNameExample()
    ensures SanitizeFullName("John" + "123@" + " Doe" + "!") == "John" + " Doe"
  {
    DropStretch("John", "123@", " Doe", IsNameChar);
    KeepCharsAppend("John" + "123@" + " Doe", "!", IsNameChar);
    assert KeepChars("!", IsNameChar) == [];
  }

  lemma PhoneExample()
    ensures SanitizePhone("12345" + "abc" + "67890") == "12345" + "67890"
  {
    DropStretch("12345", "abc", "67890", IsDigit);
  }
}
