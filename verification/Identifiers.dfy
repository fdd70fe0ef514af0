/** The identifiers of models that have several: a main id, a current slug, former slugs. */
module Identifiers {

  datatype Kind = Project | PeopleGroup | Category | TagClassification

  function Prefix(kind: Kind): string {
    match kind
    case Project => "project"
    case PeopleGroup => "group"
    case Category => "category"
    case TagClassification => "tag-classification"
  }

  function Reserved(kind: Kind): set<string> {
    if kind == TagClassification then {"enabled-for-projects", "enabled-for-skills"} else {}
  }

  /** Names no object may hold, whatever the table contains. */
  function Unusable(kind: Kind): set<string> {
    {Prefix(kind)} + Reserved(kind)
  }

  // ----- which field does an identifier name? -----

  predicate IsSpace(c: char) {
    9 <= c as int <= 13 || 28 <= c as int <= 32
  }

  predicate IsDigit(c: char) {
    '0' <= c <= '9'
  }

  /** How far a text has been read as an integer. */
  datatype Reading = Leading | Signed | InDigits | AfterUnderscore | Trailing

  predicate ReadsOn(s: string, at: Reading) {
    if s == "" then at == InDigits || at == Trailing
    else
      var c, rest := s[0], s[1..];
      match at
      case Leading =>
        if IsSpace(c) then ReadsOn(rest, Leading)
        else if c == '+' || c == '-' then ReadsOn(rest, Signed)
        else IsDigit(c) && ReadsOn(rest, InDigits)
      case InDigits =>
        if IsDigit(c) then ReadsOn(rest, InDigits)
        else if c == '_' then ReadsOn(rest, AfterUnderscore)
        else IsSpace(c) && ReadsOn(rest, Trailing)
      case Trailing => IsSpace(c) && ReadsOn(rest, Trailing)
      case _ => IsDigit(c) && ReadsOn(rest, InDigits)
  }

  /** The texts that Python's `int` accepts, over ASCII: digits with single underscores between
      them, after an optional sign, with white space around. */
  predicate ReadsAsInt(s: string) {
    ReadsOn(s, Leading)
  }

  // The grammar of these texts, without reading states.
  predicate AllSpaces(s: string) {
    forall c | c in s :: IsSpace(c)
  }

  /** Digits with single underscores between them. */
  predicate Grouped(s: string) {
    && s != "" && IsDigit(s[0])
    && (|s| == 1 || Grouped(s[1..]) || (s[1] == '_' && Grouped(s[2..])))
  }

  predicate SignedDigits(s: string) {
    Grouped(s) || (s != "" && (s[0] == '+' || s[0] == '-') && Grouped(s[1..]))
  }

  /** What may follow a digit. */
  predicate GroupedOn(s: string) {
    s == "" || Grouped(s) || (s[0] == '_' && Grouped(s[1..]))
  }

  lemma GroupedFirst(c: char, s: string)
    ensures Grouped([c] + s) <==> IsDigit(c) && GroupedOn(s)
  {
    var t := [c] + s;
    assert t[1..] == s;
    if s != "" { assert t[2..] == s[1..]; }
  }

  ghost predicate SplitAt(s: string, j: nat, at: Reading) {
    && j <= |s| && AllSpaces(s[j..])
    && match at
       case Leading => SignedDigits(s[..j])
       case InDigits => GroupedOn(s[..j])
       case Trailing => j == 0
       case _ => Grouped(s[..j])
  }

  lemma {:induction false} ReadsOnIff(s: string, at: Reading)
    requires at != Leading
    ensures ReadsOn(s, at) <==> exists j: nat :: SplitAt(s, j, at)
  {
    if s == "" {
      assert SplitAt(s, 0, at) <==> at == InDigits || at == Trailing;
    } else {
      var c, rest := s[0], s[1..];
      ReadsOnIff(rest, InDigits);
      ReadsOnIff(rest, AfterUnderscore);
      ReadsOnIff(rest, Trailing);
      assert s[0..] == s && s == [c] + rest;
      SplitFirst(c, rest, at);
    }
  }

  /** Where a text splits, in terms of where its rest does. */
  lemma SplitFirst(c: char, rest: string, at: Reading)
    requires at != Leading
    ensures var s := [c] + rest;
            (exists j: nat :: SplitAt(s, j, at)) <==>
              match at
              case InDigits =>
                || (IsDigit(c) && exists j: nat :: SplitAt(rest, j, InDigits))
                || (c == '_' && exists j: nat :: SplitAt(rest, j, AfterUnderscore))
                || (IsSpace(c) && exists j: nat :: SplitAt(rest, j, Trailing))
              case Trailing => IsSpace(c) && exists j: nat :: SplitAt(rest, j, Trailing)
              case _ => IsDigit(c) && exists j: nat :: SplitAt(rest, j, InDigits)
  {
    var s := [c] + rest;
    assert s[0..] == s && rest[0..] == rest;
    assert AllSpaces(s) <==> IsSpace(c) && AllSpaces(rest);
    assert SplitAt(s, 0, InDigits) <==> AllSpaces(s);
    assert SplitAt(rest, 0, Trailing) <==> AllSpaces(rest);
    if j: nat :| SplitAt(s, j, at) {
      if j > 0 { SplitNext(c, rest, j - 1, at); }
    }
    if j: nat :| SplitAt(rest, j, InDigits) { SplitNext(c, rest, j, at); }
    if j: nat :| SplitAt(rest, j, AfterUnderscore) { SplitNext(c, rest, j, at); }
    assert forall j: nat | SplitAt(rest, j, Trailing) :: j == 0;
    assert SplitAt(s, 0, Trailing) <==> AllSpaces(s);
  }

  /** Moving the split one place along with the text. */
  lemma SplitNext(c: char, rest: string, j: nat, at: Reading)
    requires j <= |rest|
    ensures SplitAt([c] + rest, j + 1, at) <==>
              match at
              case Leading =>
                || ((c == '+' || c == '-') && SplitAt(rest, j, Signed))
                || (IsDigit(c) && SplitAt(rest, j, InDigits))
              case InDigits =>
                || (IsDigit(c) && SplitAt(rest, j, InDigits))
                || (c == '_' && SplitAt(rest, j, AfterUnderscore))
              case Trailing => false
              case _ => IsDigit(c) && SplitAt(rest, j, InDigits)
  {
    var s := [c] + rest;
    assert s[j + 1..] == rest[j..] && s[..j + 1] == [c] + rest[..j];
    assert s[..j + 1][1..] == rest[..j];
    GroupedFirst(c, rest[..j]);
  }

  /** A text reads as an integer exactly when it is digits with single underscores between
      them, after an optional sign, with white space around. */
  lemma {:induction false} ReadsAsIntIff(s: string)
    ensures ReadsAsInt(s) <==>
              exists i: nat, j: nat :: i <= |s| && AllSpaces(s[..i]) && SplitAt(s[i..], j, Leading)
  {
    if s == "" {
      forall i: nat, j: nat | i <= |s| ensures !SplitAt(s[i..], j, Leading) { assert s[i..] == ""; }
    } else {
      var c, rest := s[0], s[1..];
      ReadsAsIntIff(rest);
      ReadsOnIff(rest, Signed);
      ReadsOnIff(rest, InDigits);
      LeadingSplit(c, rest);
      assert s == [c] + rest && s[0..] == s;
      SpacesFirst(c, rest);
      hide SplitAt, AllSpaces, IsSpace, IsDigit;
    }
  }

  /** A text that starts with its sign or a digit. */
  lemma LeadingSplit(c: char, rest: string)
    ensures (exists j: nat :: SplitAt([c] + rest, j, Leading)) <==>
              || ((c == '+' || c == '-') && exists j: nat :: SplitAt(rest, j, Signed))
              || (IsDigit(c) && exists j: nat :: SplitAt(rest, j, InDigits))
  {
    var s := [c] + rest;
    assert !SplitAt(s, 0, Leading);
    if j: nat :| SplitAt(s, j, Leading) { SplitNext(c, rest, j - 1, Leading); }
    if j: nat :| SplitAt(rest, j, Signed) { SplitNext(c, rest, j, Leading); }
    if j: nat :| SplitAt(rest, j, InDigits) { SplitNext(c, rest, j, Leading); }
  }

  lemma SpacesFirst(c: char, rest: string)
    ensures var s := [c] + rest;
            (exists i: nat, j: nat :: i <= |s| && AllSpaces(s[..i]) && SplitAt(s[i..], j, Leading)) <==>
              || (exists j: nat :: SplitAt(s, j, Leading))
              || (IsSpace(c) && exists i: nat, j: nat :: i <= |rest| && AllSpaces(rest[..i]) && SplitAt(rest[i..], j, Leading))
  {
    var s := [c] + rest;
    assert s[0..] == s && AllSpaces(s[..0]);
    forall i: nat | i <= |rest|
      ensures s[i + 1..] == rest[i..] && (AllSpaces(s[..i + 1]) <==> IsSpace(c) && AllSpaces(rest[..i]))
    {
      assert s[..i + 1] == [c] + rest[..i];
    }
    forall i: nat, j: nat | 0 < i <= |s| && AllSpaces(s[..i]) && SplitAt(s[i..], j, Leading)
      ensures i - 1 <= |rest| && AllSpaces(s[..(i - 1) + 1]) && SplitAt(rest[i - 1..], j, Leading)
    {
    }
  }

  predicate IsMainId(kind: Kind, id: string) {
    if kind == Project then |id| == 8 else ReadsAsInt(id)
  }

  function WithPrefix(kind: Kind, s: string): string {
    Prefix(kind) + "-" + s
  }

  /** A text that reads as a main id no longer does once the prefix is added. */
  lemma PrefixEscapes(kind: Kind, s: string)
    requires IsMainId(kind, s)
    ensures !IsMainId(kind, WithPrefix(kind, s))
  {
    assert WithPrefix(kind, s)[0] == Prefix(kind)[0];
  }

  // ----- numerals -----

  function Digit(d: nat): char
    requires d < 10
  {
    '0' + d as char
  }

  function Numeral(n: nat): (s: string)
    ensures s != "" && forall c | c in s :: IsDigit(c)
  {
    if n < 10 then [Digit(n)] else Numeral(n / 10) + [Digit(n % 10)]
  }

  lemma {:induction false} NumeralInjective(m: nat, n: nat)
    requires Numeral(m) == Numeral(n)
    ensures m == n
  {
    var s, t := Numeral(m), Numeral(n);
    assert s[|s| - 1] == Digit(m % 10) && t[|t| - 1] == Digit(n % 10);
    if m >= 10 && n >= 10 {
      assert s[..|s| - 1] == Numeral(m / 10) && t[..|t| - 1] == Numeral(n / 10);
      NumeralInjective(m / 10, n / 10);
    }
  }

  // ----- the candidates that `get_slug` tries, in order -----

  function Candidate(kind: Kind, raw: string, k: nat): string {
    if k == 0 then raw
    else
      var s := raw + "-" + Numeral(k);
      if IsMainId(kind, s) then WithPrefix(kind, s) else s
  }

  /** Position of the last dash: it separates the name from the retry number. */
  lemma LastDash(a: string, m: nat, b: string, n: nat)
    requires a + "-" + Numeral(m) == b + "-" + Numeral(n)
    ensures m == n && a == b
  {
    var s := a + "-" + Numeral(m);
    assert s[|a|] == '-' && s[|b|] == '-';
    assert forall i | |a| < i < |s| :: s[i] == Numeral(m)[i - |a| - 1] && IsDigit(s[i]);
    assert forall i | |b| < i < |s| :: s[i] == Numeral(n)[i - |b| - 1] && IsDigit(s[i]);
    assert |a| == |b|;
    assert s[..|a|] == a && s[..|b|] == b;
    assert s[|a| + 1..] == Numeral(m) && s[|b| + 1..] == Numeral(n);
    NumeralInjective(m, n);
  }

  lemma CandidateShape(kind: Kind, raw: string, k: nat)
    requires k > 0
    ensures exists head :: Candidate(kind, raw, k) == head + "-" + Numeral(k) && |head| >= |raw|
  {
    var s := raw + "-" + Numeral(k);
    if IsMainId(kind, s) {
      var head := Prefix(kind) + "-" + raw;
      assert WithPrefix(kind, s) == head + "-" + Numeral(k);
    } else {
      assert s == raw + "-" + Numeral(k);
    }
  }

  /** The candidates are pairwise distinct, prefixed or not. */
  lemma CandidatesDistinct(kind: Kind, raw: string, i: nat, j: nat)
    requires i < j
    ensures Candidate(kind, raw, i) != Candidate(kind, raw, j)
  {
    CandidateShape(kind, raw, j);
    var b :| Candidate(kind, raw, j) == b + "-" + Numeral(j) && |b| >= |raw|;
    if i > 0 && Candidate(kind, raw, i) == Candidate(kind, raw, j) {
      CandidateShape(kind, raw, i);
      var a :| Candidate(kind, raw, i) == a + "-" + Numeral(i) && |a| >= |raw|;
      LastDash(a, i, b, j);
    }
  }

  lemma CandidateIsSlug(kind: Kind, raw: string, k: nat)
    requires !IsMainId(kind, raw)
    ensures !IsMainId(kind, Candidate(kind, raw, k))
  {
    var s := raw + "-" + Numeral(k);
    if k > 0 && IsMainId(kind, s) {
      PrefixEscapes(kind, s);
    }
  }

  // ----- lengths -----

  /** A dash can only be the sign of an integer. */
  lemma {:induction false} DashOnlyLeads(s: string, at: Reading)
    requires at != Leading && '-' in s
    ensures !ReadsOn(s, at)
  {
    var rest := s[1..];
    assert s[0] == '-' || '-' in rest by { assert s == [s[0]] + rest; }
    if s[0] != '-' {
      DashOnlyLeads(rest, InDigits);
      DashOnlyLeads(rest, AfterUnderscore);
      DashOnlyLeads(rest, Trailing);
    }
  }

  /** A retry number makes an integer-like name of no text that starts with a visible
      character, so only projects may prefix a candidate once more. */
  lemma CandidateLength(kind: Kind, raw: string, k: nat)
    requires raw != "" && !IsSpace(raw[0])
    ensures var n := |raw| + (if k == 0 then 0 else 1 + |Numeral(k)|);
            |Candidate(kind, raw, k)| == if k > 0 && kind == Project && n == 8 then 16 else n
  {
    var s := raw + "-" + Numeral(k);
    var rest := s[1..];
    assert rest[|raw| - 1] == '-';
    DashOnlyLeads(rest, Signed);
    DashOnlyLeads(rest, InDigits);
    assert s[0] == raw[0] && !ReadsAsInt(s);
  }
}
