/** `get_slug`: the first usable candidate for a name, found against a finite table. */
module SlugAllocator {
  import opened Common
  import opened Identifiers

  /** A title together with its slugified text, cut to 46 characters. */
  datatype Title = Title(text: string, slugified: string)

  datatype Row = Row(title: Title, slug: string, outdated: seq<string>, deleted: bool)

  /** Rows by primary key, soft-deleted ones included. */
  type Table = map<string, Row>

  /** Every slug that leads, or has led, to the object; an empty slug stands for none. */
  function Ids(r: Row): set<string> {
    Elements(r.outdated) + (if r.slug == "" then {} else {r.slug})
  }

  function Taken(t: Table): set<string> {
    set pk, s | pk in t && s in Ids(t[pk]) :: s
  }

  predicate SlugExists(t: Table, slug: string) {
    exists pk :: pk in t && slug in Ids(t[pk])
  }

  lemma {:induction false} SlugExistsIsTaken(t: Table, slug: string)
    ensures SlugExists(t, slug) <==> slug in Taken(t)
  {
  }

  /** The retry loop runs while the candidate is one of these. */
  function Blocked(kind: Kind, t: Table): set<string> {
    Taken(t) + Unusable(kind)
  }

  function Escaped(kind: Kind, raw: string): (r: string)
    ensures !IsMainId(kind, r)
    ensures raw != "" ==> r != ""
    decreases IsMainId(kind, raw)
  {
    if IsMainId(kind, raw) then
      PrefixEscapes(kind, raw);
      Escaped(kind, WithPrefix(kind, raw))
    else raw
  }

  function Base(kind: Kind, title: Title): string {
    if title.slugified == "" || title.slugified == "-" then Prefix(kind) else title.slugified
  }

  function Raw(kind: Kind, title: Title): (r: string)
    ensures !IsMainId(kind, r) && r != ""
  {
    Escaped(kind, Base(kind, title))
  }

  /** The first `k` candidates are passed over: own identifiers are accepted even when blocked. */
  ghost predicate Skipped(kind: Kind, blocked: set<string>, own: set<string>, raw: string, k: nat) {
    forall j: nat | j < k :: Candidate(kind, raw, j) in blocked - own
  }

  /** `k` is where the search stops. */
  ghost predicate StopsAt(kind: Kind, blocked: set<string>, own: set<string>, raw: string, k: nat) {
    && (Candidate(kind, raw, k) in own || Candidate(kind, raw, k) !in blocked)
    && Skipped(kind, blocked, own, raw, k)
  }

  /** The retries stop: blocked candidates are pairwise distinct members of a finite set. */
  lemma RetriesBounded(kind: Kind, blocked: set<string>, own: set<string>, raw: string, k: nat)
    requires Skipped(kind, blocked, own, raw, k)
    ensures k <= |blocked|
  {
    var tried := seq(k, j requires 0 <= j => Candidate(kind, raw, j));
    forall i, j | 0 <= i < j < k ensures tried[i] != tried[j] {
      CandidatesDistinct(kind, raw, i, j);
    }
    DistinctFit(tried, blocked);
  }

  lemma SkipNext(kind: Kind, blocked: set<string>, own: set<string>, raw: string, k: nat)
    requires Skipped(kind, blocked, own, raw, k)
    requires Candidate(kind, raw, k) in blocked && Candidate(kind, raw, k) !in own
    ensures Skipped(kind, blocked, own, raw, k + 1) && k + 1 <= |blocked|
  {
    forall j: nat | j < k + 1 ensures Candidate(kind, raw, j) in blocked - own {
      assert j < k || j == k;
    }
    RetriesBounded(kind, blocked, own, raw, k + 1);
  }

  function FirstFit(kind: Kind, blocked: set<string>, own: set<string>, raw: string, k: nat): (r: nat)
    requires Skipped(kind, blocked, own, raw, k)
    ensures StopsAt(kind, blocked, own, raw, r) && k <= r <= |blocked|
    decreases |blocked| - k
  {
    RetriesBounded(kind, blocked, own, raw, k);
    var slug := Candidate(kind, raw, k);
    if slug in blocked && slug !in own then
      SkipNext(kind, blocked, own, raw, k);
      FirstFit(kind, blocked, own, raw, k + 1)
    else k
  }

  lemma StopIsUnique(kind: Kind, blocked: set<string>, own: set<string>, raw: string, j: nat, k: nat)
    requires StopsAt(kind, blocked, own, raw, j) && StopsAt(kind, blocked, own, raw, k)
    ensures j == k
  {
  }

  function Retries(kind: Kind, t: Table, r: Row): nat {
    FirstFit(kind, Blocked(kind, t), Ids(r), Raw(kind, r.title), 0)
  }

  /** The slug `get_slug` returns for a row of title `r.title` held in memory. */
  function SlugFor(kind: Kind, t: Table, r: Row): string {
    Candidate(kind, Raw(kind, r.title), Retries(kind, t, r))
  }

  /** A title whose own name is usable, no main id and free gets exactly that name. */
  lemma FreeTitleIsSlug(kind: Kind, t: Table, r: Row)
    requires r.title.slugified !in {"", "-"} && !IsMainId(kind, r.title.slugified)
    ensures SlugFor(kind, t, r) == r.title.slugified <==>
              r.title.slugified in Ids(r) || r.title.slugified !in Blocked(kind, t)
  {
    var k := Retries(kind, t, r);
    if k > 0 { CandidatesDistinct(kind, r.title.slugified, 0, k); }
  }

  /** The search ends within |taken| + |reserved| + 1 retries, never on a main id, and on a
      name that is unused and unreserved unless it already belongs to the object. */
  lemma SlugForSound(kind: Kind, t: Table, r: Row)
    ensures Retries(kind, t, r) <= |Taken(t)| + |Reserved(kind)| + 1
    ensures var slug := SlugFor(kind, t, r);
            && slug != "" && !IsMainId(kind, slug)
            && (slug in Ids(r) || (!SlugExists(t, slug) && slug !in Unusable(kind)))
  {
    var raw, k := Raw(kind, r.title), Retries(kind, t, r);
    CandidateIsSlug(kind, raw, k);
    SlugExistsIsTaken(t, SlugFor(kind, t, r));
    assert |Unusable(kind)| <= |Reserved(kind)| + 1;
    assert |Blocked(kind, t)| <= |Taken(t)| + |Unusable(kind)|;
  }

  // ----- what `get_slug` answers -----

  /** The `k`-th name for a slugified title: the title, or the prefix when there is none, with
      the prefix in front when that reads as a main id; from the second on with a number, and
      with the prefix in front when that reads as a main id. */
  function NthName(kind: Kind, title: string, k: nat): string {
    var name := if title == "" || title == "-" then Prefix(kind) else title;
    var raw := if IsMainId(kind, name) then Prefix(kind) + "-" + name else name;
    var numbered := raw + "-" + Numeral(k);
    if k == 0 then raw
    else if IsMainId(kind, numbered) then Prefix(kind) + "-" + numbered
    else numbered
  }

  lemma CandidateIsNth(kind: Kind, title: Title, k: nat)
    ensures Candidate(kind, Raw(kind, title), k) == NthName(kind, title.slugified, k)
  {
    hide IsMainId;
    EscapedOnce(kind, Base(kind, title));
  }

  /** The object may have the name: its own, or unused and usable. */
  ghost predicate MayHave(kind: Kind, t: Table, r: Row, name: string) {
    name in Ids(r) || (!SlugExists(t, name) && name !in Unusable(kind))
  }

  /** The slug is the first of these names that the object may have. */
  lemma SlugIsFirstName(kind: Kind, t: Table, r: Row)
    ensures exists k: nat ::
              && SlugFor(kind, t, r) == NthName(kind, r.title.slugified, k)
              && MayHave(kind, t, r, NthName(kind, r.title.slugified, k))
              && forall j: nat | j < k :: !MayHave(kind, t, r, NthName(kind, r.title.slugified, j))
  {
    hide NthName, Candidate, MayHave, Ids, Raw;
    var k := Retries(kind, t, r);
    assert StopsAt(kind, Blocked(kind, t), Ids(r), Raw(kind, r.title), k);
    NthMayHave(kind, t, r, k);
    forall j: nat | j < k ensures !MayHave(kind, t, r, NthName(kind, r.title.slugified, j)) {
      NthMayHave(kind, t, r, j);
    }
  }

  lemma NthMayHave(kind: Kind, t: Table, r: Row, j: nat)
    ensures var name := Candidate(kind, Raw(kind, r.title), j);
            && name == NthName(kind, r.title.slugified, j)
            && (MayHave(kind, t, r, name) <==> name in Ids(r) || name !in Blocked(kind, t))
  {
    CandidateIsNth(kind, r.title, j);
    SlugExistsIsTaken(t, NthName(kind, r.title.slugified, j));
    hide NthName, Candidate, Taken, SlugExists, Ids, Unusable, Raw;
  }

  /** A title that reads as a main id gets its own name behind the prefix, exactly when that is
      the object's own or not blocked. */
  lemma MainIdTitleIsPrefixed(kind: Kind, t: Table, r: Row)
    requires IsMainId(kind, r.title.slugified)
    ensures var name := Prefix(kind) + "-" + r.title.slugified;
            SlugFor(kind, t, r) == name <==> name in Ids(r) || name !in Blocked(kind, t)
  {
    var k := Retries(kind, t, r);
    CandidateIsNth(kind, r.title, 0);
    assert !IsMainId(kind, "") && !IsMainId(kind, "-");
    assert NthName(kind, r.title.slugified, 0) == Prefix(kind) + "-" + r.title.slugified;
    assert StopsAt(kind, Blocked(kind, t), Ids(r), Raw(kind, r.title), k);
    if k > 0 { CandidatesDistinct(kind, Raw(kind, r.title), 0, k); }
    hide NthName, Candidate, Blocked, Ids, Raw, IsMainId;
  }

  // ----- the width of the column -----

  const SLUG_WIDTH := 50

  lemma EscapedOnce(kind: Kind, s: string)
    ensures Escaped(kind, s) == if IsMainId(kind, s) then WithPrefix(kind, s) else s
  {
    if IsMainId(kind, s) {
      PrefixEscapes(kind, s);
      hide IsMainId;
      assert Escaped(kind, WithPrefix(kind, s)) == WithPrefix(kind, s);
    }
  }

  /** Whether the slug fits its column depends on the raw name and the retry number alone; the
      raw name is the slugified title, longer by the prefix when that reads as a main id. */
  lemma SlugFitsIff(kind: Kind, t: Table, r: Row)
    requires r.title.slugified != "" ==> !IsSpace(r.title.slugified[0])
    ensures var title, k := r.title.slugified, Retries(kind, t, r);
            var base := if title == "" || title == "-" then Prefix(kind) else title;
            var raw := |base| + (if IsMainId(kind, base) then |Prefix(kind)| + 1 else 0);
            && |Raw(kind, r.title)| == raw
            && (|SlugFor(kind, t, r)| <= SLUG_WIDTH <==>
                  raw + (if k == 0 then 0 else 1 + |Numeral(k)|) <= SLUG_WIDTH)
  {
    EscapedOnce(kind, Base(kind, r.title));
    assert !IsSpace(Prefix(kind)[0]);
    hide IsMainId, IsSpace, Base, Candidate, Retries;
    CandidateLength(kind, Raw(kind, r.title), Retries(kind, t, r));
  }
}
