/** rename_files.py: clean the name parts, build a `YYYYMM-tag-camera-film`
    prefix, order a batch of files by capture date and give each a padded
    ordinal, then carry the renames out with collision checks.

    The metadata and `os.stat` each file would be read for are parameters;
    the filesystem is a map from paths to file identities that the renames
    update. */
module RenameFiles {
  import opened Wrappers
  import opened Text
  import opened Timestamps
  import opened Paths
  import FixDates

  // ================================================================ tokens

  /** What `SAFE_CHARS` keeps: ASCII letters and digits, and `-`. */
  predicate IsSafe(c: char) {
    ('A' <= c <= 'Z') || ('a' <= c <= 'z') || ('0' <= c <= '9') || c == '-'
  }

  predicate AllSafe(s: string) {
    forall i :: 0 <= i < |s| ==> IsSafe(s[i])
  }

  /** `s or ""`. */
  function OrEmpty(s: Option<string>): string {
    if s.Some? then s.value else []
  }

  /** `_clean_token`: strip, drop spaces, turn `_` into `-`, then drop every
      character outside `[A-Za-z0-9-]`. */
  function CleanToken(s: Option<string>): (r: string)
    ensures AllSafe(r)
    ensures s.None? ==> r == []
  {
    Keep(ReplaceAll(RemoveAll(Strip(OrEmpty(s)), ' '), '_', '-'), IsSafe)
  }

  /** The same cleaning, one character at a time: `_` becomes `-`, another
      safe character stays, anything else goes. */
  function CleanChars(s: string): (r: string)
    ensures AllSafe(r)
  {
    if s == [] then []
    else (if s[0] == '_' then "-" else if IsSafe(s[0]) then [s[0]] else []) + CleanChars(s[1..])
  }

  lemma {:induction false} CleanCharsAppend(a: string, b: string)
    ensures CleanChars(a + b) == CleanChars(a) + CleanChars(b)
  {
    if a == [] {
      assert a + b == b;
    } else {
      assert (a + b)[0] == a[0];
      assert (a + b)[1..] == a[1..] + b;
      CleanCharsAppend(a[1..], b);
    }
  }

  /** Whitespace is never safe, so it cleans away entirely. */
  lemma {:induction false} CleanCharsBlank(s: string)
    requires forall i :: 0 <= i < |s| ==> IsSpace(s[i])
    ensures CleanChars(s) == []
  {
    if s != [] {
      assert IsSpace(s[0]);
      CleanCharsBlank(s[1..]);
    }
  }

  lemma {:induction false} KeepAppend(a: string, b: string, keep: char -> bool)
    ensures Keep(a + b, keep) == Keep(a, keep) + Keep(b, keep)
  {
    if a == [] {
      assert a + b == b;
    } else {
      assert (a + b)[0] == a[0];
      assert (a + b)[1..] == a[1..] + b;
      KeepAppend(a[1..], b, keep);
    }
  }

  /** Removing spaces, rewriting underscores and filtering, done character
      by character. */
  lemma {:induction false} PipelineCharwise(t: string)
    ensures Keep(ReplaceAll(RemoveAll(t, ' '), '_', '-'), IsSafe) == CleanChars(t)
  {
    if t != [] {
      var head := if t[0] == ' ' then [] else [t[0]];
      var rest := RemoveAll(t[1..], ' ');
      assert RemoveAll(t, ' ') == head + rest;
      assert ReplaceAll(head + rest, '_', '-') == ReplaceAll(head, '_', '-') + ReplaceAll(rest, '_', '-');
      KeepAppend(ReplaceAll(head, '_', '-'), ReplaceAll(rest, '_', '-'), IsSafe);
      PipelineCharwise(t[1..]);
      if t[0] == '_' {
        assert Keep(ReplaceAll(head, '_', '-'), IsSafe) == "-";
      } else if t[0] != ' ' {
        assert ReplaceAll(head, '_', '-') == [t[0]];
        assert Keep([t[0]], IsSafe) == (if IsSafe(t[0]) then [t[0]] else []);
      }
    }
  }

  lemma CleanCharsStripLeft(s: string)
    ensures CleanChars(StripLeft(s)) == CleanChars(s)
  {
    var l := StripLeft(s);
    var lead := s[..|s| - |l|];
    assert s == lead + l;
    CleanCharsBlank(lead);
    CleanCharsAppend(lead, l);
  }

  lemma CleanCharsStripRight(s: string)
    ensures CleanChars(StripRight(s)) == CleanChars(s)
  {
    var r := StripRight(s);
    var trail := s[|r|..];
    assert s == r + trail;
    assert forall i :: 0 <= i < |trail| ==> trail[i] == s[|r| + i];
    CleanCharsBlank(trail);
    CleanCharsAppend(r, trail);
  }

  /** `_clean_token` keeps exactly the safe characters, in order, with `_`
      turned into `-`: the strip and the space removal change nothing the
      final filter would not. */
  lemma CleanTokenCharwise(s: string)
    ensures CleanToken(Some(s)) == CleanChars(s)
  {
    CleanCharsStripLeft(s);
    CleanCharsStripRight(StripLeft(s));
    PipelineCharwise(Strip(s));
  }

  /** Safe text without underscores cleans to itself. */
  lemma {:induction false} CleanCharsKeepsSafe(s: string)
    requires AllSafe(s)
    ensures CleanChars(s) == s
  {
    if s != [] {
      CleanCharsKeepsSafe(s[1..]);
    }
  }

  /** Cleaning is idempotent. */
  lemma CleanTokenIdempotent(s: Option<string>)
    ensures CleanToken(Some(CleanToken(s))) == CleanToken(s)
  {
    CleanTokenCharwise(CleanToken(s));
    CleanCharsKeepsSafe(CleanToken(s));
  }

  // ================================================================ prefix

  /** Why `build_prefix` refuses: the year-month does not have six digits. */
  datatype PrefixError = NotSixDigits(digits: string)

  /** `[p for p in parts if p]`. */
  function NonEmpty(parts: seq<string>): (r: seq<string>)
    ensures forall i :: 0 <= i < |r| ==> r[i] != []
  {
    if parts == [] then []
    else (if parts[0] == [] then [] else [parts[0]]) + NonEmpty(parts[1..])
  }

  /** `build_prefix`: the digits of the year-month, which must be exactly
      six, then each non-empty cleaned token, joined with `-`. */
  function BuildPrefix(yyyymm: Option<string>, tag: Option<string>, camera: Option<string>, film: Option<string>)
    : (r: Result<string, PrefixError>)
    ensures r.Failure? <==> |Keep(OrEmpty(yyyymm), IsDigit)| != 6
  {
    var digits := Keep(OrEmpty(yyyymm), IsDigit);
    if |digits| != 6 then Failure(NotSixDigits(digits))
    else Success(Join(NonEmpty([digits] + [CleanToken(tag), CleanToken(camera), CleanToken(film)]), "-"))
  }

  /** Each non-empty token preceded by a dash, in order. */
  function DashEach(tokens: seq<string>): string {
    if tokens == [] then []
    else (if tokens[0] == [] then [] else "-" + tokens[0]) + DashEach(tokens[1..])
  }

  lemma {:induction false} JoinNonEmpty(head: string, tokens: seq<string>)
    requires head != []
    ensures Join(NonEmpty([head] + tokens), "-") == head + DashEach(tokens)
    decreases |tokens|
  {
    assert ([head] + tokens)[1..] == tokens;
    if tokens != [] {
      var rest := NonEmpty(tokens);
      if tokens[0] == [] {
        assert NonEmpty([head] + tokens) == [head] + NonEmpty(tokens[1..]);
        assert NonEmpty([head] + tokens[1..]) == [head] + NonEmpty(tokens[1..]) by {
          assert ([head] + tokens[1..])[1..] == tokens[1..];
        }
        JoinNonEmpty(head, tokens[1..]);
      } else {
        JoinNonEmpty(tokens[0], tokens[1..]);
        assert tokens == [tokens[0]] + tokens[1..];
        assert NonEmpty([head] + tokens) == [head] + NonEmpty(tokens);
      }
    }
  }

  lemma {:induction false} DashEachSafe(tokens: seq<string>)
    requires forall i :: 0 <= i < |tokens| ==> AllSafe(tokens[i])
    ensures AllSafe(DashEach(tokens))
  {
    if tokens != [] {
      DashEachSafe(tokens[1..]);
    }
  }

  lemma {:induction false} AllSafeAppend(a: string, b: string)
    requires AllSafe(a) && AllSafe(b)
    ensures AllSafe(a + b)
  {
    assert forall i :: 0 <= i < |a| ==> (a + b)[i] == a[i];
    assert forall i :: |a| <= i < |a + b| ==> (a + b)[i] == b[i - |a|];
  }

  /** Six digits, then `-token` per non-empty safe token: safe throughout. */
  lemma PrefixFromTokens(digits: string, a: string, b: string, c: string)
    requires |digits| == 6 && forall i :: 0 <= i < 6 ==> IsDigit(digits[i])
    requires AllSafe(a) && AllSafe(b) && AllSafe(c)
    ensures Join(NonEmpty([digits] + [a, b, c]), "-") == digits + DashEach([a, b, c])
    ensures AllSafe(digits + DashEach([a, b, c]))
  {
    var tokens := [a, b, c];
    assert forall i :: 0 <= i < |tokens| ==> AllSafe(tokens[i]);
    JoinNonEmpty(digits, tokens);
    DashEachSafe(tokens);
    assert AllSafe(digits);
    AllSafeAppend(digits, DashEach(tokens));
  }

  /** A prefix is the six digits followed by `-token` for each token that is
      not empty after cleaning; it is therefore safe to put in a file name. */
  lemma BuildPrefixShape(yyyymm: Option<string>, tag: Option<string>, camera: Option<string>, film: Option<string>)
    requires BuildPrefix(yyyymm, tag, camera, film).Success?
    ensures var digits := Keep(OrEmpty(yyyymm), IsDigit);
            var r := BuildPrefix(yyyymm, tag, camera, film).value;
            r == digits + DashEach([CleanToken(tag), CleanToken(camera), CleanToken(film)])
            && StartsWith(r, digits) && AllSafe(r)
  {
    var digits := Keep(OrEmpty(yyyymm), IsDigit);
    PrefixFromTokens(digits, CleanToken(tag), CleanToken(camera), CleanToken(film));
  }

  // ================================================================ ordinals

  /** `zero_pad_width`: `max(2, len(str(n)))`. */
  function ZeroPadWidth(n: nat): (w: nat)
    ensures w >= 2 && |Decimal(n)| <= w
    ensures w == 2 || w == |Decimal(n)|
  {
    if |Decimal(n)| > 2 then |Decimal(n)| else 2
  }

  /** Every ordinal from 1 to `n` fits the width, so all are padded to the
      same length. */
  lemma ZeroPadWidthFits(n: nat, i: nat)
    requires i <= n
    ensures |ZeroPad(Decimal(i), ZeroPadWidth(n))| == ZeroPadWidth(n)
  {
    DecimalLengthMonotone(i, n);
  }

  lemma ZeroPadWidthExamples()
    ensures ZeroPadWidth(7) == 2 && ZeroPadWidth(150) == 3
  {
    assert Decimal(150) == Decimal(15) + ['0'];
  }

  // ================================================================ sort key

  /** What `os.stat` reports, in microseconds since the epoch: `st_birthtime`
      where the platform has one, and `st_mtime`. */
  datatype FsStat = FsStat(birth: Option<int>, mtime: int)

  /** What sorting reads about one file: its metadata and its `os.stat`. */
  datatype FileFacts = FileFacts(metadata: FixDates.Metadata, stat: FsStat)

  /** The time `_fs_datetime` converts: the birth time unless it is missing
      or zero (a falsy value), else the modification time. */
  function FsTimestamp(st: FsStat): (t: int)
    ensures st.birth.Some? && st.birth.value != 0 ==> t == st.birth.value
    ensures st.birth.None? || st.birth.value == 0 ==> t == st.mtime
  {
    if st.birth.Some? && st.birth.value != 0 then st.birth.value else st.mtime
  }

  /** `best_datetime_for_sort`: the resolved metadata date when it is present,
      does not start with the zero date and parses; otherwise the filesystem
      time. `local` is `datetime.fromtimestamp`, the local wall clock at a
      time since the epoch. */
  function SortInstant(f: FileFacts, local: int -> Instant): (t: Instant)
    ensures FixDates.BestTarget(f.metadata) == Some(t) || t == local(FsTimestamp(f.stat))
  {
    var fallback := local(FsTimestamp(f.stat));
    match FixDates.GetBestDatetime(f.metadata)
    case None => fallback
    case Some(r) =>
      if r.tag != [] && r.value != [] && !StartsWith(r.value, "0000:00:00") then
        match ParseTimestamp(r.value)
        case Some(t) => t
        case None => fallback
      else fallback
  }

  /** A canonical date starting with the zero date has year 0, which
      `strptime` rejects. */
  lemma ZeroDateUnparseable(v: string)
    requires IsCanonical(v) && StartsWith(v, "0000:00:00")
    ensures ParseTimestamp(v).None?
  {
    assert v[0] == v[..10][0] == '0' && v[1] == v[..10][1] == '0';
    assert v[2] == v[..10][2] == '0' && v[3] == v[..10][3] == '0';
    assert FieldsOf(v).year == 0;
  }

  /** Every tag in the priority list is a non-empty name. */
  lemma DateTagsNonEmpty(k: int)
    requires 0 <= k < |FixDates.DateTags|
    ensures FixDates.DateTags[k] != []
  {
    assert |FixDates.DateTags[k]| > 0 by {
      assert k == 0 || k == 1 || k == 2 || k == 3 || k == 4 || k == 5 || k == 6;
    }
  }

  /** The sort instant is the date the file's metadata resolves to when it
      parses, and otherwise the file's birth time (or modification time) on
      the local clock: the `tag`, empty-value and zero-date guards never
      decide anything. */
  lemma SortInstantUsesBestDate(f: FileFacts, local: int -> Instant)
    ensures var best := FixDates.BestTarget(f.metadata);
            SortInstant(f, local) == if best.Some? then best.value else local(FsTimestamp(f.stat))
  {
    match FixDates.GetBestDatetime(f.metadata)
    case None =>
    case Some(r) =>
      FixDates.GetBestDatetimeFirstUsable(f.metadata);
      var k :| 0 <= k < |FixDates.DateTags| && r.tag == FixDates.DateTags[k];
      DateTagsNonEmpty(k);
      if StartsWith(r.value, "0000:00:00") {
        ZeroDateUnparseable(r.value);
      }
  }

  // ================================================================ stable sort

  /** The tuple `sorted` compares: the sort instant, then the lower-cased
      base name. */
  datatype SortKey = SortKey(at: Instant, name: string)

  function KeyOf(p: Path, facts: Path -> FileFacts, local: int -> Instant): SortKey {
    SortKey(SortInstant(facts(p), local), Lower(p.base))
  }

  /** Python's `<` on the key tuples. */
  predicate KeyLess(a: SortKey, b: SortKey) {
    a.at < b.at || (a.at == b.at && StrLess(a.name, b.name))
  }

  /** Whether `sorted` puts the element at index `i` before the one at index
      `j`: a smaller key first, and equal keys in their input order, as the
      sort is stable. */
  predicate Before(keys: seq<SortKey>, i: nat, j: nat) {
    i < |keys| && j < |keys| && (KeyLess(keys[i], keys[j]) || (keys[i] == keys[j] && i < j))
  }

  /** No key sorts before itself. */
  lemma KeyLessIrreflexive(k: SortKey)
    ensures !KeyLess(k, k)
  {
    StrLessIrreflexive(k.name);
  }

  lemma BeforeTransitive(keys: seq<SortKey>, i: nat, j: nat, k: nat)
    requires Before(keys, i, j) && Before(keys, j, k)
    ensures Before(keys, i, k)
  {
    if keys[i].at == keys[j].at == keys[k].at && StrLess(keys[i].name, keys[j].name) && StrLess(keys[j].name, keys[k].name) {
      StrLessTransitive(keys[i].name, keys[j].name, keys[k].name);
    }
  }

  lemma BeforeTotal(keys: seq<SortKey>, i: nat, j: nat)
    requires i < |keys| && j < |keys| && i != j
    ensures Before(keys, i, j) || Before(keys, j, i)
  {
    if keys[i].at == keys[j].at && keys[i].name != keys[j].name {
      StrLessTotal(keys[i].name, keys[j].name);
    }
  }

  predicate InRange(keys: seq<SortKey>, s: seq<nat>) {
    forall k :: 0 <= k < |s| ==> s[k] < |keys|
  }

  /** The indices in `s` follow `Before` strictly, pair by pair. */
  predicate SortedBy(keys: seq<SortKey>, s: seq<nat>) {
    forall a, b :: 0 <= a < b < |s| ==> Before(keys, s[a], s[b])
  }

  /** Inserts index `x` in front of the first index it comes before. */
  function Insert(keys: seq<SortKey>, x: nat, s: seq<nat>): (r: seq<nat>)
    ensures |r| == |s| + 1
    ensures forall y :: y in r <==> y == x || y in s
  {
    if s == [] then [x]
    else if Before(keys, x, s[0]) then [x] + s
    else [s[0]] + Insert(keys, x, s[1..])
  }

  lemma {:induction false} InsertSorted(keys: seq<SortKey>, x: nat, s: seq<nat>)
    requires x < |keys| && InRange(keys, s) && SortedBy(keys, s) && x !in s
    ensures InRange(keys, Insert(keys, x, s)) && SortedBy(keys, Insert(keys, x, s))
  {
    var r := Insert(keys, x, s);
    if s == [] {
    } else if Before(keys, x, s[0]) {
      forall b | 1 <= b < |r|
        ensures Before(keys, r[0], r[b])
      {
        if b > 1 {
          BeforeTransitive(keys, x, s[0], s[b - 1]);
        }
      }
    } else {
      BeforeTotal(keys, x, s[0]);
      var t := s[1..];
      assert SortedBy(keys, t) by {
        forall a, b | 0 <= a < b < |t|
          ensures Before(keys, t[a], t[b])
        {
          assert t[a] == s[a + 1] && t[b] == s[b + 1];
        }
      }
      InsertSorted(keys, x, t);
      var rt := Insert(keys, x, t);
      assert r == [s[0]] + rt;
      forall b | 0 <= b < |rt|
        ensures Before(keys, s[0], rt[b])
      {
        if rt[b] != x {
          assert rt[b] in t;
          var j :| 0 <= j < |t| && t[j] == rt[b];
          assert s[j + 1] == rt[b];
        }
      }
    }
  }

  /** Every index in `s` is below `b`. */
  predicate Below(s: seq<nat>, b: nat) {
    forall k :: 0 <= k < |s| ==> s[k] < b
  }

  lemma {:induction false} InsertBelow(keys: seq<SortKey>, x: nat, s: seq<nat>, b: nat)
    requires x < b && Below(s, b)
    ensures Below(Insert(keys, x, s), b)
  {
    if s != [] && !Before(keys, x, s[0]) {
      InsertBelow(keys, x, s[1..], b);
    }
  }

  /** The indices `0 .. n-1`, inserted one after the other: `sorted`'s order
      on the first `n` files. */
  function SortIndices(keys: seq<SortKey>, n: nat): (r: seq<nat>)
    requires n <= |keys|
    ensures |r| == n && Below(r, n)
  {
    if n == 0 then []
    else
      InsertBelow(keys, n - 1, SortIndices(keys, n - 1), n);
      Insert(keys, n - 1, SortIndices(keys, n - 1))
  }

  /** The order is strictly increasing under `Before`: sorted by key, stable,
      and with every index once. */
  lemma {:induction false} SortIndicesSorted(keys: seq<SortKey>, n: nat)
    requires n <= |keys|
    ensures InRange(keys, SortIndices(keys, n)) && SortedBy(keys, SortIndices(keys, n))
  {
    if n > 0 {
      SortIndicesSorted(keys, n - 1);
      InsertSorted(keys, n - 1, SortIndices(keys, n - 1));
    }
  }

  /** The elements at the given indices, in that order. */
  function Select<T>(xs: seq<T>, s: seq<nat>): (r: seq<T>)
    requires Below(s, |xs|)
    ensures |r| == |s|
    ensures forall k :: 0 <= k < |s| ==> r[k] == xs[s[k]]
  {
    if s == [] then [] else [xs[s[0]]] + Select(xs, s[1..])
  }

  lemma {:induction false} SelectInsert<T>(xs: seq<T>, keys: seq<SortKey>, x: nat, s: seq<nat>)
    requires x < |xs| && Below(s, |xs|)
    ensures Below(Insert(keys, x, s), |xs|)
            && multiset(Select(xs, Insert(keys, x, s))) == multiset(Select(xs, s)) + multiset{xs[x]}
  {
    InsertBelow(keys, x, s, |xs|);
    var r := Insert(keys, x, s);
    if s == [] {
      assert Select(xs, r) == [xs[x]];
    } else if Before(keys, x, s[0]) {
      assert r == [x] + s;
      assert r[1..] == s;
      assert Select(xs, r) == [xs[x]] + Select(xs, s);
    } else {
      var t := s[1..];
      SelectInsert(xs, keys, x, t);
      assert r == [s[0]] + Insert(keys, x, t);
      assert r[1..] == Insert(keys, x, t);
      assert Select(xs, r) == [xs[s[0]]] + Select(xs, Insert(keys, x, t));
      assert Select(xs, s) == [xs[s[0]]] + Select(xs, t);
    }
  }

  /** Sorting permutes: the files in sorted order are the files given. */
  lemma {:induction false} SortIndicesPermutes<T>(xs: seq<T>, keys: seq<SortKey>, n: nat)
    requires n <= |keys| && n <= |xs|
    ensures Below(SortIndices(keys, n), |xs|)
            && multiset(Select(xs, SortIndices(keys, n))) == multiset(xs[..n])
  {
    var r := SortIndices(keys, n);
    assert Below(r, |xs|) by {
      assert Below(r, n);
    }
    if n > 0 {
      var prev := SortIndices(keys, n - 1);
      SortIndicesPermutes(xs, keys, n - 1);
      SelectInsert(xs, keys, n - 1, prev);
      assert r == Insert(keys, n - 1, prev);
      assert xs[..n] == xs[..n - 1] + [xs[n - 1]];
      calc {
        multiset(Select(xs, r));
        multiset(Select(xs, prev)) + multiset{xs[n - 1]};
        multiset(xs[..n - 1]) + multiset([xs[n - 1]]);
        multiset(xs[..n]);
      }
    }
  }

  // ================================================================ the plan

  /** One rename: the source path and the new base name. */
  datatype PlanEntry = PlanEntry(src: Path, dst: string)

  function Keys(files: seq<Path>, facts: Path -> FileFacts, local: int -> Instant): (keys: seq<SortKey>)
    ensures |keys| == |files|
    ensures forall i :: 0 <= i < |files| ==> keys[i] == KeyOf(files[i], facts, local)
  {
    seq(|files|, i requires 0 <= i < |files| => KeyOf(files[i], facts, local))
  }

  /** The order `sorted` gives the files, as indices into `files`. */
  function Order(files: seq<Path>, facts: Path -> FileFacts, local: int -> Instant): (order: seq<nat>)
    ensures |order| == |files| && Below(order, |files|)
  {
    var keys := Keys(files, facts, local);
    SortIndicesSorted(keys, |files|);
    SortIndices(keys, |files|)
  }

  /** `f"{prefix}-{i:0{pad}d}{ext}"` with the lower-cased extension of `src`. */
  function NewName(prefix: string, i: nat, pad: nat, src: Path): string {
    prefix + "-" + ZeroPad(Decimal(i), pad) + Lower(Extension(src.base))
  }

  /** The plan for files taken in the given order: entry `k` renames the
      `k`-th file of the order to ordinal `k + 1`. */
  function Numbered(files: seq<Path>, order: seq<nat>, prefix: string): (plan: seq<PlanEntry>)
    requires Below(order, |files|)
    ensures |plan| == |order|
    ensures forall k :: 0 <= k < |order| ==>
              plan[k] == PlanEntry(files[order[k]], NewName(prefix, k + 1, ZeroPadWidth(|files|), files[order[k]]))
  {
    seq(|order|, k requires 0 <= k < |order| =>
      PlanEntry(files[order[k]], NewName(prefix, k + 1, ZeroPadWidth(|files|), files[order[k]])))
  }

  /** What `plan_new_names` returns. */
  function Plan(files: seq<Path>, facts: Path -> FileFacts, local: int -> Instant, prefix: string): (plan: seq<PlanEntry>)
    ensures |plan| == |files|
  {
    Numbered(files, Order(files, facts, local), prefix)
  }

  /** The numbering loop of `plan_new_names`, over files in the given order. */
  method NumberFiles(files: seq<Path>, order: seq<nat>, prefix: string) returns (plan: seq<PlanEntry>)
    requires Below(order, |files|)
    ensures plan == Numbered(files, order, prefix)
  {
    var pad := ZeroPadWidth(|files|);
    ghost var numbered := Numbered(files, order, prefix);
    plan := [];
    for k := 0 to |order|
      invariant plan == numbered[..k]
    {
      var src := files[order[k]];
      var dstName := NewName(prefix, k + 1, pad, src);
      assert PlanEntry(src, dstName) == numbered[k];
      SliceSnoc(numbered, k);
      plan := plan + [PlanEntry(src, dstName)];
    }
    SliceAll(numbered);
  }

  /** `plan_new_names`: sort, then number the files in that order. */
  method PlanNewNames(files: seq<Path>, facts: Path -> FileFacts, local: int -> Instant, prefix: string)
    returns (plan: seq<PlanEntry>)
    ensures plan == Plan(files, facts, local, prefix)
  {
    var order := Order(files, facts, local);
    plan := NumberFiles(files, order, prefix);
  }

  function Sources(plan: seq<PlanEntry>): (r: seq<Path>)
    ensures |r| == |plan| && forall k :: 0 <= k < |plan| ==> r[k] == plan[k].src
  {
    seq(|plan|, k requires 0 <= k < |plan| => plan[k].src)
  }

  /** The plan renames every file given, each once. */
  lemma PlanPermutes(files: seq<Path>, facts: Path -> FileFacts, local: int -> Instant, prefix: string)
    ensures multiset(Sources(Plan(files, facts, local, prefix))) == multiset(files)
  {
    var keys := Keys(files, facts, local);
    var order := Order(files, facts, local);
    SortIndicesPermutes(files, keys, |files|);
    assert Sources(Plan(files, facts, local, prefix)) == Select(files, order);
    assert files[..|files|] == files;
  }

  /** The plan lists the files by ascending (date, lower-cased name), and
      files with equal keys keep their input order. */
  lemma PlanOrdered(files: seq<Path>, facts: Path -> FileFacts, local: int -> Instant, prefix: string, a: int, b: int)
    requires 0 <= a < b < |files|
    ensures var plan := Plan(files, facts, local, prefix);
            var ka := KeyOf(plan[a].src, facts, local);
            var kb := KeyOf(plan[b].src, facts, local);
            KeyLess(ka, kb) || ka == kb
    ensures var order := Order(files, facts, local);
            KeyOf(files[order[a]], facts, local) == KeyOf(files[order[b]], facts, local) ==> order[a] < order[b]
  {
    var keys := Keys(files, facts, local);
    var order := Order(files, facts, local);
    assert order == SortIndices(keys, |files|);
    SortIndicesSorted(keys, |files|);
    assert Before(keys, order[a], order[b]);
    var plan := Plan(files, facts, local, prefix);
    assert plan[a].src == files[order[a]] && plan[b].src == files[order[b]];
    assert keys[order[a]] == KeyOf(files[order[a]], facts, local);
    assert keys[order[b]] == KeyOf(files[order[b]], facts, local);
    KeyLessIrreflexive(keys[order[a]]);
  }

  /** Entry `k` gets ordinal `k + 1`, padded to the common width, right
      after the prefix and a dash. */
  lemma PlanNumbering(files: seq<Path>, order: seq<nat>, prefix: string, k: int)
    requires Below(order, |files|) && |order| == |files| && 0 <= k < |files|
    ensures var dst := Numbered(files, order, prefix)[k].dst;
            var pad := ZeroPadWidth(|files|);
            |dst| >= |prefix| + 1 + pad
            && dst[..|prefix| + 1] == prefix + "-"
            && AllDigits(dst[|prefix| + 1..|prefix| + 1 + pad])
            && NumberValue(dst[|prefix| + 1..|prefix| + 1 + pad]) == k + 1
  {
    var pad := ZeroPadWidth(|files|);
    var p := ZeroPad(Decimal(k + 1), pad);
    ZeroPadWidthFits(|files|, k + 1);
    var e := Lower(Extension(files[order[k]].base));
    var dst := Numbered(files, order, prefix)[k].dst;
    assert dst == (prefix + "-") + p + e;
    assert dst[|prefix| + 1..|prefix| + 1 + pad] == p;
    assert dst[..|prefix| + 1] == prefix + "-";
    ZeroPadValue(k + 1, pad);
  }

  lemma ZeroPadValue(n: nat, w: nat)
    ensures AllDigits(ZeroPad(Decimal(n), w)) && NumberValue(ZeroPad(Decimal(n), w)) == n
  {
    DecimalRoundTrip(n);
    var d := Decimal(n);
    if |d| < w {
      LeadingZerosIgnored(w - |d|, d);
    }
  }

  /** No two entries of a plan get the same new name. */
  lemma PlanNamesDistinct(files: seq<Path>, facts: Path -> FileFacts, local: int -> Instant, prefix: string, a: int, b: int)
    requires 0 <= a < |files| && 0 <= b < |files| && a != b
    ensures Plan(files, facts, local, prefix)[a].dst != Plan(files, facts, local, prefix)[b].dst
  {
    var order := Order(files, facts, local);
    PlanNumbering(files, order, prefix, a);
    PlanNumbering(files, order, prefix, b);
  }

  // ================================================================ applying the plan

  /** The identity of a file on disk, which a rename carries to its new path. */
  type FileId = nat

  /** What one message of `apply_plan` reports about an entry. */
  datatype Status =
    | DuplicateInBatch  // an earlier entry already claimed the name
    | AlreadyExists     // another file sits at the destination
    | WouldRename       // dry run
    | Renamed
    | RenameFailed      // `os.rename` raised

  /** A message: the source's base name, the new name and the status. */
  datatype Message = Message(name: string, dst: string, status: Status)

  /** The statuses counted in `skipped`. */
  predicate Skipped(st: Status) {
    st == DuplicateInBatch || st == AlreadyExists || st == RenameFailed
  }

  /** The statuses of entries whose name went into `targets`. */
  predicate Claims(st: Status) {
    st == WouldRename || st == Renamed || st == RenameFailed
  }

  /** The state `apply_plan` carries through its loop. */
  datatype RunState = RunState(files: map<Path, FileId>, targets: set<string>, ok: nat, skipped: nat, msgs: seq<Message>)

  /** `os.rename(src, dst)` on a file that exists: the file moves to `dst`,
      replacing whatever was there; renaming a file onto itself changes
      nothing. */
  function Moved(files: map<Path, FileId>, src: Path, dst: Path): map<Path, FileId>
    requires src in files
  {
    if src == dst then files else (files - {src})[dst := files[src]]
  }

  /** One pass of `apply_plan`'s loop. The rename fails when the source is
      gone or is one of the paths in `refused`, the paths the operating
      system refuses to rename.
      The pass adds one message about its entry. The entry is a duplicate
      exactly when its name was claimed before, and it is blocked exactly when
      another file sits at its destination. Otherwise it claims its name and
      is renamed exactly when this is no dry run and the source can be moved.
      `ok` counts the renames, `skipped` the skips, and only a rename changes
      the folder. */
  function Step(s: RunState, e: PlanEntry, dryRun: bool, refused: set<Path>): (t: RunState)
    ensures |t.msgs| == |s.msgs| + 1 && t.msgs == s.msgs + [t.msgs[|s.msgs|]]
    ensures var m := t.msgs[|s.msgs|];
            var dst := Path(e.src.dir, e.dst);
            && m.name == e.src.base && m.dst == e.dst
            && (m.status == DuplicateInBatch <==> e.dst in s.targets)
            && (m.status == AlreadyExists <==> e.dst !in s.targets && dst in s.files && dst != e.src)
            && (m.status == WouldRename <==> Claims(m.status) && dryRun)
            && (m.status == Renamed <==> Claims(m.status) && !dryRun && e.src in s.files && e.src !in refused)
            && t.targets == (if Claims(m.status) then s.targets + {e.dst} else s.targets)
            && t.ok == s.ok + (if m.status == Renamed then 1 else 0)
            && t.skipped == s.skipped + (if Skipped(m.status) then 1 else 0)
            && t.files == (if m.status == Renamed then Moved(s.files, e.src, dst) else s.files)
  {
    var dst := Path(e.src.dir, e.dst);
    var name := e.src.base;
    if e.dst in s.targets then
      s.(skipped := s.skipped + 1, msgs := s.msgs + [Message(name, e.dst, DuplicateInBatch)])
    else if dst in s.files && dst != e.src then
      s.(skipped := s.skipped + 1, msgs := s.msgs + [Message(name, e.dst, AlreadyExists)])
    else if dryRun then
      s.(targets := s.targets + {e.dst}, msgs := s.msgs + [Message(name, e.dst, WouldRename)])
    else if e.src in s.files && e.src !in refused then
      s.(files := Moved(s.files, e.src, dst), targets := s.targets + {e.dst}, ok := s.ok + 1,
         msgs := s.msgs + [Message(name, e.dst, Renamed)])
    else
      s.(targets := s.targets + {e.dst}, skipped := s.skipped + 1,
         msgs := s.msgs + [Message(name, e.dst, RenameFailed)])
  }

  /** The loop run over the whole plan. */
  function Run(s: RunState, plan: seq<PlanEntry>, dryRun: bool, refused: set<Path>): (r: RunState)
    ensures |r.msgs| == |s.msgs| + |plan|
    decreases |plan|
  {
    if plan == [] then s
    else Step(Run(s, plan[..|plan| - 1], dryRun, refused), plan[|plan| - 1], dryRun, refused)
  }

  /** The messages the run over `plan` adds, one per entry. */
  function RunReports(s: RunState, plan: seq<PlanEntry>, dryRun: bool, refused: set<Path>): (m: seq<Message>)
    ensures |m| == |plan|
  {
    Run(s, plan, dryRun, refused).msgs[|s.msgs|..]
  }

  /** The folder the renames happen in: which file sits at which path. */
  class Folder {
    var files: map<Path, FileId>

    constructor(initial: map<Path, FileId>)
      ensures files == initial
    {
      files := initial;
    }

    /** `os.rename(src, dst)`. */
    method Rename(src: Path, dst: Path, refused: set<Path>) returns (success: bool)
      modifies this
      ensures success <==> src in old(files) && src !in refused
      ensures files == if success then Moved(old(files), src, dst) else old(files)
    {
      success := src in files && src !in refused;
      if success {
        files := Moved(files, src, dst);
      }
    }

    /** `apply_plan`: returns `(ok, skipped, msgs)` and carries the renames
        out unless `dryRun`. */
    method ApplyPlan(plan: seq<PlanEntry>, dryRun: bool, refused: set<Path>)
      returns (ok: nat, skipped: nat, msgs: seq<Message>)
      modifies this
      ensures var r := Run(RunState(old(files), {}, 0, 0, []), plan, dryRun, refused);
              files == r.files && ok == r.ok && skipped == r.skipped && msgs == r.msgs
    {
      ghost var start := RunState(files, {}, 0, 0, []);
      ok, skipped, msgs := 0, 0, [];
      var targets: set<string> := {};
      for i := 0 to |plan|
        invariant RunState(files, targets, ok, skipped, msgs) == Run(start, plan[..i], dryRun, refused)
      {
        ghost var before := RunState(files, targets, ok, skipped, msgs);
        var src := plan[i].src;
        var dstName := plan[i].dst;
        var dst := Path(src.dir, dstName);
        assert plan[..i + 1][..i] == plan[..i];
        if dstName in targets {
          skipped := skipped + 1;
          msgs := msgs + [Message(src.base, dstName, DuplicateInBatch)];
          continue;
        }
        if dst in files && dst != src {
          skipped := skipped + 1;
          msgs := msgs + [Message(src.base, dstName, AlreadyExists)];
          continue;
        }
        targets := targets + {dstName};
        if dryRun {
          msgs := msgs + [Message(src.base, dstName, WouldRename)];
        } else {
          var success := Rename(src, dst, refused);
          if success {
            ok := ok + 1;
            msgs := msgs + [Message(src.base, dstName, Renamed)];
          } else {
            skipped := skipped + 1;
            msgs := msgs + [Message(src.base, dstName, RenameFailed)];
          }
        }
      }
      assert plan[..|plan|] == plan;
    }
  }

  /** One message per entry, in plan order, naming the entry's source and
      new name; earlier messages stay as they were. */
  lemma {:induction false} RunMessages(s: RunState, plan: seq<PlanEntry>, dryRun: bool, refused: set<Path>)
    ensures var r := Run(s, plan, dryRun, refused);
            r.msgs == s.msgs + RunReports(s, plan, dryRun, refused)
    ensures var m := RunReports(s, plan, dryRun, refused);
            forall k :: 0 <= k < |plan| ==> m[k].name == plan[k].src.base && m[k].dst == plan[k].dst
    decreases |plan|
  {
    if plan != [] {
      var init := plan[..|plan| - 1];
      RunMessages(s, init, dryRun, refused);
      ReportsExtend(s, plan, dryRun, refused);
      var mi := RunReports(s, init, dryRun, refused);
      var m := RunReports(s, plan, dryRun, refused);
      var r := Run(s, plan, dryRun, refused);
      assert r.msgs == s.msgs + m;
      forall k | 0 <= k < |plan|
        ensures m[k].name == plan[k].src.base && m[k].dst == plan[k].dst
      {
        if k < |init| {
          assert m[k] == mi[k] && init[k] == plan[k];
        }
      }
    }
  }

  /** The reports for a plan are those for all but its last entry, then the
      last entry's one. */
  lemma ReportsExtend(s: RunState, plan: seq<PlanEntry>, dryRun: bool, refused: set<Path>)
    requires plan != []
    ensures var init := plan[..|plan| - 1];
            RunReports(s, plan, dryRun, refused)
            == RunReports(s, init, dryRun, refused) + [Run(s, plan, dryRun, refused).msgs[|s.msgs| + |init|]]
  {
    var init := plan[..|plan| - 1];
    var r := Run(s, plan, dryRun, refused);
    var m := Run(s, init, dryRun, refused);
    assert m.msgs[|s.msgs|..] + [r.msgs[|r.msgs| - 1]] == r.msgs[|s.msgs|..];
  }

  /** A dry run renames nothing and counts nothing as done. */
  lemma {:induction false} RunDry(s: RunState, plan: seq<PlanEntry>, refused: set<Path>)
    ensures Run(s, plan, true, refused).files == s.files
    ensures Run(s, plan, true, refused).ok == s.ok
    decreases |plan|
  {
    if plan != [] {
      RunDry(s, plan[..|plan| - 1], refused);
    }
  }

  /** Outside a dry run every entry is either renamed or skipped. */
  lemma {:induction false} RunCounts(s: RunState, plan: seq<PlanEntry>, refused: set<Path>)
    ensures var r := Run(s, plan, false, refused);
            r.ok + r.skipped == s.ok + s.skipped + |plan|
    decreases |plan|
  {
    if plan != [] {
      RunCounts(s, plan[..|plan| - 1], refused);
    }
  }

  /** Some entry of `plan` with new name `name` has a message in `m` whose
      status claims that name. */
  predicate ClaimedBy(plan: seq<PlanEntry>, m: seq<Message>, name: string)
    requires |m| == |plan|
  {
    exists k :: 0 <= k < |plan| && plan[k].dst == name && Claims(m[k].status)
  }

  lemma ClaimedBySnoc(plan: seq<PlanEntry>, m: seq<Message>, name: string)
    requires |m| == |plan| && plan != []
    ensures ClaimedBy(plan, m, name) <==>
              ClaimedBy(plan[..|plan| - 1], m[..|m| - 1], name)
              || (plan[|plan| - 1].dst == name && Claims(m[|m| - 1].status))
  {
    var n := |plan| - 1;
    if ClaimedBy(plan, m, name) {
      var k :| 0 <= k < |plan| && plan[k].dst == name && Claims(m[k].status);
      if k < n {
        assert plan[..n][k] == plan[k] && m[..n][k] == m[k];
      }
    }
    if ClaimedBy(plan[..n], m[..n], name) {
      var k :| 0 <= k < n && plan[..n][k].dst == name && Claims(m[..n][k].status);
      assert plan[k] == plan[..n][k] && m[k] == m[..n][k];
    }
  }

  /** The names in `targets` after the run are the ones there before and the
      new names of entries that were not skipped as a duplicate or an
      existing file. */
  lemma {:induction false} RunTargets(s: RunState, plan: seq<PlanEntry>, dryRun: bool, refused: set<Path>, name: string)
    ensures var r := Run(s, plan, dryRun, refused);
            var m := RunReports(s, plan, dryRun, refused);
            name in r.targets <==>
              name in s.targets || exists k :: 0 <= k < |plan| && plan[k].dst == name && Claims(m[k].status)
    decreases |plan|
  {
    if plan != [] {
      var init := plan[..|plan| - 1];
      var e := plan[|plan| - 1];
      RunTargets(s, init, dryRun, refused, name);
      ReportsExtend(s, plan, dryRun, refused);
      var mr := Run(s, init, dryRun, refused);
      var m := RunReports(s, plan, dryRun, refused);
      var mi := RunReports(s, init, dryRun, refused);
      assert m[..|m| - 1] == mi;
      ClaimedBySnoc(plan, m, name);
    }
  }

  /** The messages for the first `n` entries do not depend on the entries
      after them. */
  lemma {:induction false} RunReportsPrefix(s: RunState, plan: seq<PlanEntry>, dryRun: bool, refused: set<Path>, n: nat)
    requires n <= |plan|
    ensures RunReports(s, plan[..n], dryRun, refused) == RunReports(s, plan, dryRun, refused)[..n]
    decreases |plan|
  {
    if n == |plan| {
      assert plan[..n] == plan;
    } else {
      var init := plan[..|plan| - 1];
      assert init[..n] == plan[..n];
      RunReportsPrefix(s, init, dryRun, refused, n);
      ReportsExtend(s, plan, dryRun, refused);
    }
  }

  /** Entry `k`'s message is the one its pass adds to the state the first
      `k` entries left behind. */
  lemma RunReportAt(s: RunState, plan: seq<PlanEntry>, dryRun: bool, refused: set<Path>, k: nat)
    requires k < |plan|
    ensures var before := Run(s, plan[..k], dryRun, refused);
            RunReports(s, plan, dryRun, refused)[k] == Step(before, plan[k], dryRun, refused).msgs[|before.msgs|]
  {
    var p := plan[..k + 1];
    assert p[..k] == plan[..k] && p[k] == plan[k];
    RunReportsPrefix(s, plan, dryRun, refused, k + 1);
    ReportsExtend(s, p, dryRun, refused);
  }

  /** The collision checks over a whole run: entry `k` is skipped as a
      duplicate exactly when its new name was claimed before the run or by an
      earlier entry, and as an existing file exactly when it is no duplicate
      and another file sits at its destination once the earlier entries are
      done. */
  lemma RunCollisions(s: RunState, plan: seq<PlanEntry>, dryRun: bool, refused: set<Path>, k: nat)
    requires k < |plan|
    ensures var m := RunReports(s, plan, dryRun, refused);
            var e := plan[k];
            var dst := Path(e.src.dir, e.dst);
            var before := Run(s, plan[..k], dryRun, refused);
            && (m[k].status == DuplicateInBatch <==>
                  e.dst in s.targets || exists j :: 0 <= j < k && plan[j].dst == e.dst && Claims(m[j].status))
            && (m[k].status == AlreadyExists <==>
                  m[k].status != DuplicateInBatch && dst in before.files && dst != e.src)
  {
    var m := RunReports(s, plan, dryRun, refused);
    var e := plan[k];
    var mk := RunReports(s, plan[..k], dryRun, refused);
    RunReportAt(s, plan, dryRun, refused, k);
    RunTargets(s, plan[..k], dryRun, refused, e.dst);
    RunReportsPrefix(s, plan, dryRun, refused, k);
    if exists j :: 0 <= j < k && plan[j].dst == e.dst && Claims(m[j].status) {
      var j :| 0 <= j < k && plan[j].dst == e.dst && Claims(m[j].status);
      assert plan[..k][j] == plan[j] && mk[j] == m[j];
    }
    if exists j :: 0 <= j < k && plan[..k][j].dst == e.dst && Claims(mk[j].status) {
      var j :| 0 <= j < k && plan[..k][j].dst == e.dst && Claims(mk[j].status);
      assert plan[..k][j] == plan[j] && mk[j] == m[j];
    }
  }

  predicate IsRenamed(st: Status) {
    st == Renamed
  }

  /** How many messages of `m` have a status satisfying `p`. */
  function Tally(m: seq<Message>, p: Status -> bool): (n: nat)
    ensures n <= |m|
  {
    if m == [] then 0 else Tally(m[..|m| - 1], p) + (if p(m[|m| - 1].status) then 1 else 0)
  }

  /** What the counters mean: the run adds to `ok` the number of entries it
      renamed and to `skipped` the number it skipped, dry run or not. */
  lemma {:induction false} RunCounters(s: RunState, plan: seq<PlanEntry>, dryRun: bool, refused: set<Path>)
    ensures var r := Run(s, plan, dryRun, refused);
            var m := RunReports(s, plan, dryRun, refused);
            && r.ok == s.ok + Tally(m, IsRenamed)
            && r.skipped == s.skipped + Tally(m, Skipped)
    decreases |plan|
  {
    if plan != [] {
      var init := plan[..|plan| - 1];
      RunCounters(s, init, dryRun, refused);
      ReportsExtend(s, plan, dryRun, refused);
      var m := RunReports(s, plan, dryRun, refused);
      assert m[..|m| - 1] == RunReports(s, init, dryRun, refused);
    }
  }

  /** When the new names are pairwise distinct and none was claimed before,
      no entry is skipped as a duplicate. */
  lemma {:induction false} DistinctNamesNoDuplicate(s: RunState, plan: seq<PlanEntry>, dryRun: bool, refused: set<Path>)
    requires forall a, b :: 0 <= a < b < |plan| ==> plan[a].dst != plan[b].dst
    requires forall k :: 0 <= k < |plan| ==> plan[k].dst !in s.targets
    ensures var m := RunReports(s, plan, dryRun, refused);
            forall k :: 0 <= k < |m| ==> m[k].status != DuplicateInBatch
    decreases |plan|
  {
    if plan != [] {
      var init := plan[..|plan| - 1];
      var e := plan[|plan| - 1];
      DistinctNamesNoDuplicate(s, init, dryRun, refused);
      ReportsExtend(s, plan, dryRun, refused);
      RunTargets(s, init, dryRun, refused, e.dst);
      var mr := Run(s, init, dryRun, refused);
      assert e.dst !in mr.targets;
    }
  }

  /** An entry whose file already carries its new name is not skipped as an
      existing file: the file at the destination is the source itself. */
  lemma StepKeepsAlreadyNamed(s: RunState, e: PlanEntry, dryRun: bool, refused: set<Path>)
    requires e.dst == e.src.base && e.dst !in s.targets
    ensures Step(s, e, dryRun, refused).msgs[|s.msgs|].status != AlreadyExists
  {
  }

  /** A rename the collision checks let through never overwrites a file: the
      same files are on disk afterwards, under as many paths. */
  lemma MovedKeepsFiles(files: map<Path, FileId>, src: Path, dst: Path)
    requires src in files && (dst !in files || dst == src)
    ensures Moved(files, src, dst).Values == files.Values
    ensures |Moved(files, src, dst).Keys| == |files.Keys|
  {
    if src != dst {
      var m := Moved(files, src, dst);
      assert m.Keys == files.Keys - {src} + {dst};
      forall v | v in files.Values
        ensures v in m.Values
      {
        var p :| p in files && files[p] == v;
        if p == src {
          assert m[dst] == v;
        } else {
          assert m[p] == v;
        }
      }
      forall v | v in m.Values
        ensures v in files.Values
      {
        var p :| p in m && m[p] == v;
        if p == dst {
          assert files[src] == v;
        } else {
          assert files[p] == v;
        }
      }
    }
  }

  /** Renaming a whole plan loses no file and puts no two files on one path. */
  lemma {:induction false} RunKeepsFiles(s: RunState, plan: seq<PlanEntry>, dryRun: bool, refused: set<Path>)
    ensures Run(s, plan, dryRun, refused).files.Values == s.files.Values
    ensures |Run(s, plan, dryRun, refused).files.Keys| == |s.files.Keys|
    decreases |plan|
  {
    if plan != [] {
      var init := plan[..|plan| - 1];
      var e := plan[|plan| - 1];
      RunKeepsFiles(s, init, dryRun, refused);
      var m := Run(s, init, dryRun, refused);
      var dst := Path(e.src.dir, e.dst);
      if e.dst !in m.targets && !(dst in m.files && dst != e.src) && !dryRun && e.src in m.files && e.src !in refused {
        MovedKeepsFiles(m.files, e.src, dst);
      }
    }
  }

  /** Applying a plan with pairwise distinct new names to a folder: one
      message per entry, none a duplicate in the batch; a dry run changes
      nothing, otherwise every entry is renamed or skipped; no file is lost. */
  lemma ApplyDistinctPlan(disk: map<Path, FileId>, plan: seq<PlanEntry>, dryRun: bool, refused: set<Path>)
    requires forall a, b :: 0 <= a < b < |plan| ==> plan[a].dst != plan[b].dst
    ensures var s := RunState(disk, {}, 0, 0, []);
            var r := Run(s, plan, dryRun, refused);
            var m := RunReports(s, plan, dryRun, refused);
            r.msgs == m
            && (forall k :: 0 <= k < |m| ==> m[k].status != DuplicateInBatch)
            && (dryRun ==> r.ok == 0 && r.files == disk)
            && (!dryRun ==> r.ok + r.skipped == |plan|)
            && r.files.Values == disk.Values
  {
    var s := RunState(disk, {}, 0, 0, []);
    RunMessages(s, plan, dryRun, refused);
    DistinctNamesNoDuplicate(s, plan, dryRun, refused);
    if dryRun {
      RunDry(s, plan, refused);
    } else {
      RunCounts(s, plan, refused);
    }
    RunKeepsFiles(s, plan, dryRun, refused);
  }

  /** A freshly built plan has distinct new names, so applying it never
      reports a duplicate in the batch. */
  lemma ApplyFreshPlan(files: seq<Path>, facts: Path -> FileFacts, local: int -> Instant, prefix: string,
                       disk: map<Path, FileId>, dryRun: bool, refused: set<Path>)
    ensures var plan := Plan(files, facts, local, prefix);
            var m := RunReports(RunState(disk, {}, 0, 0, []), plan, dryRun, refused);
            |m| == |files| && forall k :: 0 <= k < |m| ==> m[k].status != DuplicateInBatch
  {
    var plan := Plan(files, facts, local, prefix);
    forall a, b | 0 <= a < b < |plan|
      ensures plan[a].dst != plan[b].dst
    {
      PlanNamesDistinct(files, facts, local, prefix, a, b);
    }
    ApplyDistinctPlan(disk, plan, dryRun, refused);
  }
}
