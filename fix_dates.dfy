/** fix_dates.py: resolve a capture date from a file's metadata tags, write it
    back with ExifTool, check the filesystem times and, when they did not
    move, retry them with SetFile.

    The subprocesses and `os.stat` are replaced by their results: the
    metadata map ExifTool returns, the exit status (and output) of each tool
    run, and the filesystem times read after each step. */
module FixDates {
  import opened Wrappers
  import opened Text
  import opened Timestamps
  import opened Paths

  // ================================================================ constants

  /** `EXTS`: the still-image and video extensions the batch looks at. */
  const MediaExtensions: seq<string> :=
    [".jpg", ".jpeg", ".heic", ".heif", ".png", ".gif",
     ".tif", ".tiff", ".dng", ".nef", ".arw", ".cr2", ".raf",
     ".mov", ".mp4", ".m4v", ".mts", ".m2ts", ".3gp", ".avi"]

  /** The extensions the writer treats as video containers. */
  const VideoExtensions: seq<string> :=
    [".mov", ".mp4", ".m4v", ".mts", ".m2ts", ".3gp", ".avi"]

  /** `TAG_CANDIDATES`: the list printed when no date is found. */
  const TagCandidates: seq<string> :=
    ["DateTimeOriginal", "CreateDate", "MediaCreateDate", "TrackCreateDate", "CreationDate"]

  /** The tags `get_best_datetime` tries, most preferred first. */
  const DateTags: seq<string> :=
    ["EXIF:DateTimeOriginal", "EXIF:CreateDate", "QuickTime:CreationDate",
     "QuickTime:CreateDate", "Keys:CreationDate", "XMP:CreateDate", "QuickTime:ModifyDate"]

  predicate EndsWithAny(s: string, suffixes: seq<string>) {
    exists i :: 0 <= i < |suffixes| && EndsWith(s, suffixes[i])
  }

  // ================================================================ raw values

  /** One JSON value ExifTool reports for a tag: `null`, text or an integer. */
  datatype Scalar = Null | Str(text: string) | Int(number: int)

  /** A tag's value: a single value, or a list (of which only the first item is read). */
  datatype Raw = Single(v: Scalar) | Items(first: Scalar, rest: seq<Scalar>)

  /** The tag -> value record `read_metadata` returns. */
  type Metadata = map<string, Raw>

  /** `md.get(tag)`: a missing tag reads as Python `None`. */
  function Lookup(md: Metadata, tag: string): Raw {
    if tag in md then md[tag] else Single(Null)
  }

  /** `str(x)`. */
  function PyStr(x: Scalar): string {
    match x
    case Null => "None"
    case Str(s) => s
    case Int(n) => IntToString(n)
  }

  /** The scalar `_to_text` reads: a list's first item, or the value itself. */
  function Item(v: Raw): Scalar {
    if v.Items? then v.first else v.v
  }

  /** `_to_text`: the stripped text of a value, or `None` for `None`, blank text
      and the zero-filled sentinel. A list contributes its first item only. */
  function ToText(v: Raw): (r: Option<string>)
    ensures v == Single(Null) ==> r.None?
    ensures r.Some? ==> r.value != [] && r.value != Sentinel
    ensures r.Some? ==> !IsSpace(r.value[0]) && !IsSpace(r.value[|r.value| - 1])
  {
    if v == Single(Null) then None
    else
      var t := Strip(PyStr(Item(v)));
      if t == [] || t == Sentinel then None else Some(t)
  }

  /** Which text `_to_text` gives back: absent exactly for `None`, for text
      that is all whitespace and for text that strips to the sentinel;
      otherwise `str` of the item with whitespace cut from its two ends and
      nothing else. */
  lemma ToTextStrips(v: Raw)
    ensures v != Single(Null) ==>
              var x := PyStr(Item(v));
              (ToText(v).None? <==> (forall k :: 0 <= k < |x| ==> IsSpace(x[k])) || Strip(x) == Sentinel)
    ensures ToText(v).Some? ==> exists a :: TrimmedAt(PyStr(Item(v)), ToText(v).value, a)
  {
    if v != Single(Null) {
      StripTrims(PyStr(Item(v)));
      StripEmptyIffBlank(PyStr(Item(v)));
    }
  }

  /** Only the first item of a list is ever looked at: it reads like the
      item given on its own (except `None`, which a list turns into "None"). */
  lemma ToTextFirstItemOnly(first: Scalar, rest: seq<Scalar>, other: seq<Scalar>)
    ensures ToText(Items(first, rest)) == ToText(Items(first, other))
    ensures first != Null ==> ToText(Items(first, rest)) == ToText(Single(first))
  {
  }

  // ================================================================ normalisation

  /** Where `(?:[T ])(\d{2}:\d{2}:\d{2}).*$` matches in `t` at position `p`.
      `t` is stripped text, so it does not end in a newline and `$` matches
      only at its end; `.` does not match a newline. */
  predicate TimeAt(t: string, p: nat) {
    p + 9 <= |t| && (t[p] == 'T' || t[p] == ' ')
    && IsDigit(t[p + 1]) && IsDigit(t[p + 2]) && t[p + 3] == ':'
    && IsDigit(t[p + 4]) && IsDigit(t[p + 5]) && t[p + 6] == ':'
    && IsDigit(t[p + 7]) && IsDigit(t[p + 8])
    && forall k :: p + 9 <= k < |t| ==> t[k] != '\n'
  }

  /** `re.sub(r"(?:[T ])(\d{2}:\d{2}:\d{2}).*$", r" \1", t)`, searching from
      position `p`: the leftmost match runs to the end of the text and is
      replaced by a space and the time, so whatever follows the time (a zone
      offset, a `Z`) is dropped. */
  function DropZone(t: string, p: nat): string
    decreases |t| - p
  {
    if p + 9 > |t| then t
    else if TimeAt(t, p) then t[..p] + " " + t[p + 1..p + 9]
    else DropZone(t, p + 1)
  }

  /** The substitution as `re.sub` defines it: with no match from `p` on the
      text is unchanged, and otherwise the leftmost match is replaced. */
  lemma {:induction false} DropZoneLeftmost(t: string, p: nat)
    ensures (forall q :: p <= q ==> !TimeAt(t, q)) ==> DropZone(t, p) == t
    ensures forall q :: p <= q && TimeAt(t, q) && (forall q' :: p <= q' < q ==> !TimeAt(t, q')) ==>
              DropZone(t, p) == t[..q] + " " + t[q + 1..q + 9]
    decreases |t| - p
  {
    if p + 9 <= |t| && !TimeAt(t, p) {
      DropZoneLeftmost(t, p + 1);
    }
  }

  /** The text half of `_normalize_dt_string`, applied to what `_to_text`
      returned: `T` becomes a space, a zone suffix after the time is cut,
      a hyphenated date gets colons, and the result must then have the
      canonical shape, of which the first 19 characters are kept. */
  function Canonicalize(s: string): (r: Option<string>)
    ensures r.Some? ==> IsCanonical(r.value)
  {
    var t := DropZone(ReplaceAll(s, 'T', ' '), 0);
    var u := if ShapedPrefix(t, '-') then ReplaceFirst(t, '-', ':', 2) else t;
    if ShapedPrefix(u, ':') then Some(u[..19]) else None
  }

  /** `_normalize_dt_string`: a raw value as a canonical `YYYY:MM:DD HH:MM:SS`
      string, or `None`. */
  function Normalize(v: Raw): (r: Option<string>)
    ensures r.Some? ==> IsCanonical(r.value)
    ensures ToText(v).None? ==> r.None?
  {
    match ToText(v)
    case None => None
    case Some(s) => Canonicalize(s)
  }

  /** `None`, blank text and the sentinel (with any surrounding blanks) are
      all "absent". */
  lemma NormalizeAbsent(v: Raw)
    requires v == Single(Null)
             || (v.Single? && v.v.Str? && Strip(v.v.text) == Sentinel)
             || (v.Single? && v.v.Str? && forall i :: 0 <= i < |v.v.text| ==> IsSpace(v.v.text[i]))
    ensures Normalize(v).None?
  {
    if v.Single? && v.v.Str? && forall i :: 0 <= i < |v.v.text| ==> IsSpace(v.v.text[i]) {
      StripBlank(v.v.text);
    }
  }

  /** A canonical timestamp written with `sep` between the date fields and
      `tsep` between date and time: `2024-04-28T14:19:45` and the like. */
  function Spelled(c: string, sep: char, tsep: char): (r: string)
    requires IsCanonical(c)
    ensures |r| == 19
  {
    c[4 := sep][7 := sep][10 := tsep]
  }

  /** The canonical spelling is the timestamp itself. */
  lemma SpelledCanonical(c: string)
    requires IsCanonical(c)
    ensures Spelled(c, ':', ' ') == c
  {
    var r := Spelled(c, ':', ' ');
    forall i | 0 <= i < 19
      ensures r[i] == c[i]
    {
    }
  }

  /** Every time-of-day match that starts before position `m` of `t` starts at
      a space and ends at or after `m`, so cutting at it keeps `t[..m]`. */
  lemma {:induction false} DropZoneKeepsPrefix(t: string, p: nat, m: nat)
    requires m <= |t|
    requires forall q :: p <= q < m && TimeAt(t, q) ==> t[q] == ' ' && q + 9 >= m
    ensures |DropZone(t, p)| >= m && DropZone(t, p)[..m] == t[..m]
    decreases |t| - p
  {
    if p + 9 > |t| {
    } else if TimeAt(t, p) {
      if p < m {
        assert t[..p] + " " + t[p + 1..p + 9] == t[..p + 9];
      }
    } else {
      DropZoneKeepsPrefix(t, p + 1, m);
    }
  }

  /** Turning `T` into a space and cutting the zone keeps a spelled timestamp,
      now with a space before the time. */
  lemma ZoneDropped(c: string, sep: char, tsep: char, s: string)
    requires IsCanonical(c) && (sep == ':' || sep == '-') && (tsep == ' ' || tsep == 'T')
    requires |s| >= 19 && s[..19] == Spelled(c, sep, tsep)
    ensures |DropZone(ReplaceAll(s, 'T', ' '), 0)| >= 19
    ensures DropZone(ReplaceAll(s, 'T', ' '), 0)[..19] == Spelled(c, sep, ' ')
  {
    var t := ReplaceAll(s, 'T', ' ');
    var y := Spelled(c, sep, ' ');
    forall i | 0 <= i < 19
      ensures t[i] == y[i]
    {
      assert s[i] == s[..19][i];
    }
    assert t[..19] == y;
    forall q | 0 <= q < 19 && TimeAt(t, q)
      ensures t[q] == ' ' && q + 9 >= 19
    {
      assert t[q] == y[q];
    }
    DropZoneKeepsPrefix(t, 0, 19);
  }

  /** The date part of a hyphenated timestamp loses exactly its two hyphens. */
  lemma HyphensRewritten(t: string)
    requires ShapedPrefix(t, '-')
    ensures |ReplaceFirst(t, '-', ':', 2)| == |t|
    ensures ReplaceFirst(t, '-', ':', 2)[..19] == t[..19][4 := ':'][7 := ':']
  {
    var t1 := t[5..];
    ReplaceFirstSkips(t, '-', ':', 2, 4);
    assert t[4..][1..] == t1;
    var r1 := ReplaceFirst(t1, '-', ':', 1);
    ReplaceFirstSkips(t1, '-', ':', 1, 2);
    assert t1[2..][1..] == t[8..];
    assert r1 == t1[..2] + [':'] + t[8..];
    var r := ReplaceFirst(t, '-', ':', 2);
    assert r == t[..4] + [':'] + r1;
    forall i | 0 <= i < 19
      ensures r[i] == t[..19][4 := ':'][7 := ':'][i]
    {
      if i < 4 {
        assert r[i] == t[..4][i];
      } else if 4 < i < 7 {
        assert r[i] == t1[i - 5];
      } else if i > 7 {
        assert r[i] == t[8..][i - 8];
      }
    }
  }

  /** Text that starts with a spelled timestamp canonicalises to it. */
  lemma CanonicalizeSpelled(c: string, hyphens: bool, tee: bool, s: string)
    requires IsCanonical(c)
    requires |s| >= 19 && s[..19] == Spelled(c, if hyphens then '-' else ':', if tee then 'T' else ' ')
    ensures Canonicalize(s) == Some(c)
  {
    var sep := if hyphens then '-' else ':';
    ZoneDropped(c, sep, if tee then 'T' else ' ', s);
    var d := DropZone(ReplaceAll(s, 'T', ' '), 0);
    var y := Spelled(c, sep, ' ');
    assert forall i :: 0 <= i < 19 ==> d[i] == y[i] by {
      forall i | 0 <= i < 19 ensures d[i] == y[i] {
        assert d[i] == d[..19][i];
      }
    }
    if hyphens {
      assert ShapedPrefix(d, '-');
      HyphensRewritten(d);
      var u := ReplaceFirst(d, '-', ':', 2);
      assert u[..19] == c by {
        forall i | 0 <= i < 19 ensures u[..19][i] == c[i] {
          assert u[..19][i] == d[..19][4 := ':'][7 := ':'][i];
        }
      }
      assert ShapedPrefix(u, ':') by {
        forall i | 0 <= i < 19 ensures u[i] == c[i] {
          assert u[i] == u[..19][i];
        }
      }
    } else {
      assert !ShapedPrefix(d, '-');
      SpelledCanonical(c);
      assert d[..19] == c;
      assert ShapedPrefix(d, ':');
    }
  }

  /** A spelled timestamp is the sentinel text only when it is the sentinel
      written with colons and a space. */
  lemma SpelledNotSentinel(c: string, hyphens: bool, tee: bool, s: string)
    requires IsCanonical(c)
    requires c != Sentinel || hyphens || tee
    requires |s| >= 19 && s[..19] == Spelled(c, if hyphens then '-' else ':', if tee then 'T' else ' ')
    ensures s != Sentinel
  {
    var x := s[..19];
    if hyphens {
      assert s[4] == x[4] == '-';
    } else if tee {
      assert s[10] == x[10] == 'T';
    } else {
      SpelledCanonical(c);
      assert x == c;
      if |s| == 19 {
        assert s == x;
      }
    }
  }

  /** Every supported spelling of a timestamp normalises to its canonical form:
      colons or hyphens in the date, a space or a `T` before the time, and any
      trailing text (a `+02:00` offset, a `Z`) after the seconds. The time of
      day is never rewritten. Only the exact sentinel text is turned away. */
  lemma NormalizeSupportedShapes(c: string, hyphens: bool, tee: bool, tail: string)
    requires IsCanonical(c)
    requires c != Sentinel || hyphens || tee
    ensures Normalize(Single(Str(Spelled(c, if hyphens then '-' else ':', if tee then 'T' else ' ') + tail)))
            == Some(c)
  {
    var x := Spelled(c, if hyphens then '-' else ':', if tee then 'T' else ' ');
    StripKeepsPrefix(x, tail);
    var s := Strip(x + tail);
    SpelledNotSentinel(c, hyphens, tee, s);
    CanonicalizeSpelled(c, hyphens, tee, s);
  }

  /** Whitespace in front of a value never changes how it normalises, so
      every supported spelling above may also be indented. */
  lemma NormalizeLeadingBlanks(lead: string, s: string)
    requires forall k :: 0 <= k < |lead| ==> IsSpace(lead[k])
    ensures Normalize(Single(Str(lead + s))) == Normalize(Single(Str(s)))
  {
    StripLeadingBlanks(lead, s);
  }

  /** Normalisation is idempotent: a canonical value normalises to itself,
      except the sentinel, which `_to_text` turns away. */
  lemma NormalizeIdempotent(c: string)
    requires IsCanonical(c) && c != Sentinel
    ensures Normalize(Single(Str(c))) == Some(c)
  {
    NormalizeSupportedShapes(c, false, false, []);
    SpelledCanonical(c);
    assert Spelled(c, ':', ' ') + [] == c;
  }

  /** `2024-04-28 14:19:45` reads as `2024:04:28 14:19:45`. */
  lemma NormalizeHyphenExample(c: string, s: string)
    requires c == "2024:04:28 14:19:45" && s == "2024-04-28 14:19:45"
    ensures Normalize(Single(Str(s))) == Some(c)
  {
    assert Spelled(c, '-', ' ') + [] == s;
    NormalizeSupportedShapes(c, true, false, []);
  }

  /** `2024-04-28T14:19:45+02:00` reads as `2024:04:28 14:19:45`: the offset
      is dropped, not applied. */
  lemma NormalizeOffsetExample(c: string, s: string)
    requires c == "2024:04:28 14:19:45" && s == "2024-04-28T14:19:45+02:00"
    ensures Normalize(Single(Str(s))) == Some(c)
  {
    assert Spelled(c, '-', 'T') + "+02:00" == s;
    NormalizeSupportedShapes(c, true, true, "+02:00");
  }

  /** `2024-04-28T14:19:45Z` reads as `2024:04:28 14:19:45`. */
  lemma NormalizeUtcExample(c: string, s: string)
    requires c == "2024:04:28 14:19:45" && s == "2024-04-28T14:19:45Z"
    ensures Normalize(Single(Str(s))) == Some(c)
  {
    assert Spelled(c, '-', 'T') + "Z" == s;
    NormalizeSupportedShapes(c, true, true, "Z");
  }

  /** The documented shapes, and the UTC form, give the same timestamp. */
  lemma NormalizeExamples(c: string, hyphen: string, offset: string, utc: string)
    requires c == "2024:04:28 14:19:45" && hyphen == "2024-04-28 14:19:45"
    requires offset == "2024-04-28T14:19:45+02:00" && utc == "2024-04-28T14:19:45Z"
    ensures Normalize(Single(Str(c))) == Some(c)
    ensures Normalize(Single(Str(hyphen))) == Some(c)
    ensures Normalize(Single(Str(offset))) == Some(c)
    ensures Normalize(Single(Str(utc))) == Some(c)
  {
    assert IsCanonical(c);
    NormalizeIdempotent(c);
    NormalizeHyphenExample(c, hyphen);
    NormalizeOffsetExample(c, offset);
    NormalizeUtcExample(c, utc);
  }

  /** Only the exact sentinel text is rejected: its hyphenated spelling comes
      through as the sentinel itself. */
  lemma NormalizeLetsHyphenSentinelThrough(s: string)
    requires s == "0000-00-00 00:00:00"
    ensures Normalize(Single(Str(s))) == Some(Sentinel)
  {
    assert Spelled(Sentinel, '-', ' ') + [] == s;
    NormalizeSupportedShapes(Sentinel, true, false, []);
  }

  /** Likewise the sentinel written with a `T` and a `Z`. */
  lemma NormalizeLetsZonedSentinelThrough(s: string)
    requires s == "0000:00:00T00:00:00Z"
    ensures Normalize(Single(Str(s))) == Some(Sentinel)
  {
    assert Spelled(Sentinel, ':', 'T') + "Z" == s;
    NormalizeSupportedShapes(Sentinel, false, true, "Z");
  }

  // ================================================================ resolution

  /** The tag a date was taken from and its canonical value. */
  datatype Resolved = Resolved(tag: string, value: string)

  /** The normalised value of each tag in `tags`, in order. */
  function Candidates(md: Metadata, tags: seq<string>): (r: seq<Option<string>>)
    ensures |r| == |tags|
    ensures forall j :: 0 <= j < |tags| ==> r[j] == Normalize(Lookup(md, tags[j]))
  {
    seq(|tags|, j requires 0 <= j < |tags| => Normalize(Lookup(md, tags[j])))
  }

  /** The position of the first present entry of `c` from `i` on; `|c|` when
      there is none. */
  function FirstPresent(c: seq<Option<string>>, i: nat): (k: nat)
    requires i <= |c|
    ensures i <= k <= |c|
    ensures forall j :: i <= j < k ==> c[j].None?
    ensures k < |c| ==> c[k].Some?
    decreases |c| - i
  {
    if i == |c| then i
    else if c[i].Some? then i
    else FirstPresent(c, i + 1)
  }

  /** `get_best_datetime` over the metadata ExifTool returned: the first tag,
      in `DateTags` order, whose value normalises, with that value. */
  function GetBestDatetime(md: Metadata): (r: Option<Resolved>)
    ensures r.None? <==> forall j :: 0 <= j < |DateTags| ==> Normalize(Lookup(md, DateTags[j])).None?
    ensures r.Some? ==> IsCanonical(r.value.value)
  {
    var c := Candidates(md, DateTags);
    var k := FirstPresent(c, 0);
    if k == |c| then None
    else Some(Resolved(DateTags[k], c[k].value))
  }

  /** The date comes from the first tag, in priority order, whose value
      normalises, and is that tag's normalised value. */
  lemma GetBestDatetimeFirstUsable(md: Metadata)
    requires GetBestDatetime(md).Some?
    ensures exists k :: (0 <= k < |DateTags| && GetBestDatetime(md).value.tag == DateTags[k]
                         && (forall j :: 0 <= j < k ==> Normalize(Lookup(md, DateTags[j])).None?)
                         && Normalize(Lookup(md, DateTags[k])) == Some(GetBestDatetime(md).value.value))
  {
    var c := Candidates(md, DateTags);
    var k := FirstPresent(c, 0);
    assert k < |DateTags| && GetBestDatetime(md) == Some(Resolved(DateTags[k], c[k].value));
    FirstPresentCandidate(md, DateTags);
  }

  /** For any tag list: the tags before the first present candidate all
      normalise to absent, and that candidate is its tag's normalisation. */
  lemma FirstPresentCandidate(md: Metadata, tags: seq<string>)
    requires FirstPresent(Candidates(md, tags), 0) < |tags|
    ensures var k := FirstPresent(Candidates(md, tags), 0);
            && (forall j :: 0 <= j < k ==> Normalize(Lookup(md, tags[j])).None?)
            && Normalize(Lookup(md, tags[k])) == Candidates(md, tags)[k]
  {
  }

  /** A later tag never wins over an earlier usable one. */
  lemma EarlierTagWins(md: Metadata, j: nat)
    requires j < |DateTags| && Normalize(Lookup(md, DateTags[j])).Some?
    ensures GetBestDatetime(md).Some?
    ensures exists k :: 0 <= k <= j && GetBestDatetime(md).value.tag == DateTags[k]
  {
    var c := Candidates(md, DateTags);
    var k := FirstPresent(c, 0);
    assert k <= j;
  }

  /** Only the date tags matter: metadata that agrees on them resolves to the
      same date, whatever else it holds. */
  lemma ResolutionReadsOnlyDateTags(md1: Metadata, md2: Metadata)
    requires forall j :: 0 <= j < |DateTags| ==> Lookup(md1, DateTags[j]) == Lookup(md2, DateTags[j])
    ensures GetBestDatetime(md1) == GetBestDatetime(md2)
  {
    assert Candidates(md1, DateTags) == Candidates(md2, DateTags);
  }

  // ================================================================ SetFile format and tolerance

  /** `_exif_to_setfile_fmt`: `YYYY:MM:DD HH:MM:SS` as `MM/DD/YYYY HH:MM:SS`. */
  function ExifToSetFileFmt(dt: string): (r: string)
    requires IsCanonical(dt)
    ensures |r| == 19 && r[2] == '/' && r[5] == '/' && r[10] == ' '
    ensures FromSetFileFmt(r) == dt
  {
    var r := dt[5..7] + "/" + dt[8..10] + "/" + dt[0..4] + " " + dt[11..19];
    assert FromSetFileFmt(r) == dt[0..4] + ":" + dt[5..7] + ":" + dt[8..10] + " " + dt[11..19];
    r
  }

  /** The reverse reading of the SetFile shape, back to the canonical one. */
  function FromSetFileFmt(s: string): string
    requires |s| == 19
  {
    s[6..10] + ":" + s[0..2] + ":" + s[3..5] + " " + s[11..19]
  }

  /** Distinct timestamps are handed to SetFile as distinct strings. */
  lemma SetFileFmtInjective(a: string, b: string)
    requires IsCanonical(a) && IsCanonical(b) && ExifToSetFileFmt(a) == ExifToSetFileFmt(b)
    ensures a == b
  {
  }

  /** `_close_enough`'s two seconds, in microseconds. */
  const Tolerance: int := 2 * MicrosPerSecond

  /** `_close_enough(a, b)`: both present and at most two seconds apart
      (`abs((a - b).total_seconds()) <= 2`). */
  function CloseEnough(a: Option<Instant>, b: Option<Instant>): (r: bool)
    ensures r <==> a.Some? && b.Some? && -Tolerance <= a.value - b.value <= Tolerance
  {
    if a.None? || b.None? then false
    else -Tolerance <= a.value - b.value <= Tolerance
  }

  lemma CloseEnoughSymmetric(a: Option<Instant>, b: Option<Instant>)
    ensures CloseEnough(a, b) == CloseEnough(b, a)
  {
  }

  /** Two seconds off passes; three seconds (or a microsecond over two) fails. */
  lemma CloseEnoughBoundary(t: Instant)
    ensures CloseEnough(Some(t + 2 * MicrosPerSecond), Some(t))
    ensures CloseEnough(Some(t - 2 * MicrosPerSecond), Some(t))
    ensures !CloseEnough(Some(t + 2 * MicrosPerSecond + 1), Some(t))
    ensures !CloseEnough(Some(t + 3 * MicrosPerSecond), Some(t))
    ensures !CloseEnough(None, Some(t)) && !CloseEnough(Some(t), None)
  {
  }

  // ================================================================ file selection

  /** What a directory listing reports about one entry. */
  datatype EntryKind = RegularFile | Directory | OtherFile

  datatype DirEntry = DirEntry(path: Path, kind: EntryKind)

  /** `f.lower().endswith(exts_lower)`. */
  predicate HasMediaExtension(name: string) {
    EndsWithAny(Lower(name), MediaExtensions)
  }

  /** Whether `iter_files` yields an entry: `os.walk` lists every
      non-directory of the tree, `os.listdir` is filtered by `os.path.isfile`. */
  predicate Eligible(e: DirEntry, recursive: bool) {
    (if recursive then e.kind != Directory else e.kind == RegularFile)
    && HasMediaExtension(e.path.base)
  }

  /** `iter_files` over the entries the walk (or the listing) produces, in
      that order. */
  function IterFiles(listing: seq<DirEntry>, recursive: bool): (r: seq<Path>)
    ensures |r| <= |listing|
    ensures forall p :: p in r ==> exists e :: e in listing && e.path == p && Eligible(e, recursive)
    ensures forall e :: e in listing && Eligible(e, recursive) ==> e.path in r
  {
    if listing == [] then []
    else
      var init := IterFiles(listing[..|listing| - 1], recursive);
      var e := listing[|listing| - 1];
      init + (if Eligible(e, recursive) then [e.path] else [])
  }

  // ================================================================ writing

  /** Filesystem times as read back after a step (`None`: not available). */
  datatype StatTimes = StatTimes(created: Option<Instant>, modified: Option<Instant>)

  /** Both filesystem times within tolerance of the target. */
  predicate FsMatches(t: StatTimes, target: Instant) {
    CloseEnough(t.created, Some(target)) && CloseEnough(t.modified, Some(target))
  }

  /** What the outside world answers while one file is processed: its
      metadata, how the ExifTool write exits (and what it prints), the times
      read after it, how the two SetFile runs exit and the times read after
      them. */
  datatype FileEnv = FileEnv(
    metadata: Metadata,
    writeSucceeds: bool,
    writeOutput: string,
    afterWrite: StatTimes,
    setCreateSucceeds: bool,
    setModifySucceeds: bool,
    afterSetFile: StatTimes)

  /** One external tool run, with its arguments. */
  datatype Invocation = ExifTool(args: seq<string>) | SetFile(args: seq<string>)

  /** The status line reported for one file. */
  datatype Report =
    | NoUsableDate(file: string, tried: seq<string>)
    | Preview(file: string, fields: string, value: string, tag: string)
    | WriteFailed(file: string, output: string)
    | Unparseable(file: string, value: string, tag: string)
    | Written(file: string, value: string, tag: string, viaSetFile: bool)
    | FsUnchanged(file: string, value: string, tag: string)

  /** `path.lower().endswith(<video extensions>)`. */
  predicate IsVideo(p: Path) {
    EndsWithAny(Lower(Full(p)), VideoExtensions)
  }

  /** The `-<field><` options that copy the source tag into each field the
      write sets. */
  function CopiedFields(video: bool): seq<string> {
    if video then ["-FileCreateDate<", "-FileModifyDate<", "-CreateDate<", "-ModifyDate<",
                   "-MediaCreateDate<", "-TrackCreateDate<"]
    else ["-FileCreateDate<", "-FileModifyDate<", "-CreateDate<", "-ModifyDate<", "-AllDates<"]
  }

  /** The `-<field><<tag>` arguments that copy `tag` into each of `fields`. */
  function CopyArgs(fields: seq<string>, tag: string): (r: seq<string>)
    ensures |r| == |fields|
  {
    if fields == [] then [] else [fields[0] + tag] + CopyArgs(fields[1..], tag)
  }

  /** The `i`th argument copies into the `i`th field. */
  lemma {:induction false} CopyArgsAt(fields: seq<string>, tag: string)
    ensures forall i :: 0 <= i < |fields| ==> CopyArgs(fields, tag)[i] == fields[i] + tag
  {
    if fields != [] {
      CopyArgsAt(fields[1..], tag);
    }
  }

  /** The copy arguments spelled out, in the order the command lists them. */
  lemma CopyArgsSpelled(tag: string)
    ensures CopyArgs(CopiedFields(true), tag)
            == ["-FileCreateDate<" + tag, "-FileModifyDate<" + tag, "-CreateDate<" + tag,
                "-ModifyDate<" + tag, "-MediaCreateDate<" + tag, "-TrackCreateDate<" + tag]
    ensures CopyArgs(CopiedFields(false), tag)
            == ["-FileCreateDate<" + tag, "-FileModifyDate<" + tag, "-CreateDate<" + tag,
                "-ModifyDate<" + tag, "-AllDates<" + tag]
  {
    CopyArgsAt(CopiedFields(true), tag);
    CopyArgsAt(CopiedFields(false), tag);
  }

  /** The ExifTool command line that copies `tag` into the file's dates. */
  function WriteCommand(path: Path, tag: string): seq<string> {
    ["exiftool", "-overwrite_original"] + CopyArgs(CopiedFields(IsVideo(path)), tag) + [Full(path)]
  }

  /** The command line starts the program with the overwrite flag, copies
      the tag into each field and ends with the file's path. */
  lemma WriteCommandLaunches(path: Path, tag: string)
    ensures var cmd := WriteCommand(path, tag);
            var fields := CopiedFields(IsVideo(path));
            && |cmd| == |fields| + 3
            && cmd[..2] == ["exiftool", "-overwrite_original"]
            && cmd[|cmd| - 1] == Full(path)
            && (forall i :: 2 <= i < |cmd| - 1 ==> cmd[i] == fields[i - 2] + tag && EndsWith(cmd[i], tag))
  {
    var fields := CopiedFields(IsVideo(path));
    var cmd := WriteCommand(path, tag);
    CopyArgsAt(fields, tag);
    forall i | 2 <= i < |cmd| - 1
      ensures EndsWith(cmd[i], tag)
    {
      assert cmd[i] == fields[i - 2] + tag;
      assert (fields[i - 2] + tag)[|fields[i - 2]|..] == tag;
    }
  }

  /** One element of the argument list handed to `subprocess`: text, or the
      `...` (Ellipsis) object. */
  datatype Arg = Text(text: string) | EllipsisArg

  /** `subprocess` starts a program only when every argument is text;
      otherwise it raises `TypeError` before running anything. */
  predicate Launchable(argv: seq<Arg>) {
    forall i :: 0 <= i < |argv| ==> argv[i].Text?
  }

  /** A command line of strings as an argument list. */
  function AsArgs(cmd: seq<string>): (argv: seq<Arg>)
    ensures |argv| == |cmd| && Launchable(argv)
    ensures forall i :: 0 <= i < |cmd| ==> argv[i] == Text(cmd[i])
  {
    seq(|cmd|, i requires 0 <= i < |cmd| => Text(cmd[i]))
  }

  /** The argument list of the ExifTool call as written: the program, the
      overwrite flag, `...` where the copy options belong, and the path. */
  function WriteArgvAsWritten(path: Path): seq<Arg> {
    [Text("exiftool"), Text("-overwrite_original"), EllipsisArg, Text(Full(path))]
  }

  /** As written the write never starts: `...` is not text, so the call
      raises `TypeError`, which the `except` for a failed run does not catch.
      The assembled command would start. */
  lemma WriteCallAsWrittenRaises(path: Path, tag: string)
    ensures !Launchable(WriteArgvAsWritten(path))
    ensures WriteArgvAsWritten(path) != AsArgs(WriteCommand(path, tag))
  {
    assert WriteArgvAsWritten(path)[2] == EllipsisArg;
  }

  /** The two SetFile runs of the fallback, creation date first. */
  function SetFileCalls(path: Path, value: string): seq<Invocation>
    requires IsCanonical(value)
  {
    [SetFile(["-d", ExifToSetFileFmt(value), Full(path)]),
     SetFile(["-m", ExifToSetFileFmt(value), Full(path)])]
  }

  /** Both SetFile runs exit 0 and the times read afterwards are on target. */
  predicate FallbackRepairs(env: FileEnv, hasSetFile: bool, target: Instant) {
    hasSetFile && env.setCreateSucceeds && env.setModifySucceeds && FsMatches(env.afterSetFile, target)
  }

  /** The tool runs of the fallback: none when the write already moved the
      times or SetFile is not installed, and the second run only after the
      first exits 0. */
  function FallbackCalls(path: Path, value: string, env: FileEnv, hasSetFile: bool, need: bool): seq<Invocation>
    requires IsCanonical(value)
  {
    if need && hasSetFile then
      (if env.setCreateSucceeds then SetFileCalls(path, value) else SetFileCalls(path, value)[..1])
    else []
  }

  /** The fallback runs SetFile at most twice, creation date first, the
      second run only after the first exits 0, and not at all unless the
      times were off and SetFile is installed. */
  lemma FallbackCallsShape(path: Path, value: string, env: FileEnv, hasSetFile: bool, need: bool)
    requires IsCanonical(value)
    ensures var c := FallbackCalls(path, value, env, hasSetFile, need);
            && |c| <= 2
            && (|c| > 0 ==> need && hasSetFile)
            && (|c| == 2 ==> env.setCreateSucceeds)
            && forall k :: 0 <= k < |c| ==> c[k].SetFile? && c[k].args[0] == (if k == 0 then "-d" else "-m")
  {
  }

  /** What processing one file amounts to: whether it counts as done, the
      status line, and the tool runs in order. */
  datatype Outcome = Outcome(ok: bool, report: Report, calls: seq<Invocation>)

  /** Steps 2 and 3 for a date that parsed to `target`: the fallback runs
      when the times are off, and the report says whether they ended on
      target and whether SetFile was what put them there. */
  function RepairOutcome(path: Path, r: Resolved, target: Instant, env: FileEnv, hasSetFile: bool): Outcome
    requires IsCanonical(r.value)
  {
    var need := !FsMatches(env.afterWrite, target);
    Outcome(true,
            if !need then Written(path.base, r.value, r.tag, false)
            else if FallbackRepairs(env, hasSetFile, target) then Written(path.base, r.value, r.tag, true)
            else FsUnchanged(path.base, r.value, r.tag),
            FallbackCalls(path, r.value, env, hasSetFile, need))
  }

  /** Steps 1 to 3 for a resolved date that `strptime` reads as `target`: a
      failed write is final; a date it rejects stops after the write. */
  function WriteOutcome(path: Path, r: Resolved, target: Option<Instant>, env: FileEnv, hasSetFile: bool): Outcome
    requires IsCanonical(r.value)
  {
    var write := ExifTool(WriteCommand(path, r.tag));
    if !env.writeSucceeds then Outcome(false, WriteFailed(path.base, Strip(env.writeOutput)), [write])
    else if target.None? then Outcome(true, Unparseable(path.base, r.value, r.tag), [write])
    else
      var o := RepairOutcome(path, r, target.value, env, hasSetFile);
      Outcome(true, o.report, [write] + o.calls)
  }

  /** The preview line's description of what would be written. */
  function PreviewFields(path: Path): string {
    if IsVideo(path) then "FileCreate/Modify + QuickTime" else "FileCreate/Modify + EXIF"
  }

  /** `set_file_times_from_best` for one file: resolve the date, then
      preview it (dry run) or write and verify it. */
  function FileOutcome(path: Path, dryRun: bool, env: FileEnv, hasSetFile: bool): Outcome {
    match GetBestDatetime(env.metadata)
    case None => Outcome(false, NoUsableDate(path.base, TagCandidates), [])
    case Some(r) =>
      if dryRun then Outcome(true, Preview(path.base, PreviewFields(path), r.value, r.tag), [])
      else WriteOutcome(path, r, ParseTimestamp(r.value), env, hasSetFile)
  }

  /** Steps 2 and 3 of `set_file_times_from_best` once the write succeeded and
      the date parsed: check the filesystem times, run the SetFile fallback
      when they are off, and check again. */
  method VerifyAndRepair(path: Path, r: Resolved, target: Instant, env: FileEnv, hasSetFile: bool)
    returns (report: Report, calls: seq<Invocation>)
    requires IsCanonical(r.value)
    ensures Outcome(true, report, calls) == RepairOutcome(path, r, target, env, hasSetFile)
  {
    var tag, val := r.tag, r.value;
    var after := env.afterWrite;
    var needFallback := !(CloseEnough(after.created, Some(target)) && CloseEnough(after.modified, Some(target)));

    // the fallback runs only when needed; its failure is swallowed
    calls := [];
    if needFallback && hasSetFile {
      var setFileDate := ExifToSetFileFmt(val);
      calls := calls + [SetFile(["-d", setFileDate, Full(path)])];
      if env.setCreateSucceeds {
        calls := calls + [SetFile(["-m", setFileDate, Full(path)])];
        if env.setModifySucceeds {
          after := env.afterSetFile;
        }
      }
    }

    var okFs := CloseEnough(after.created, Some(target)) && CloseEnough(after.modified, Some(target));
    var suffix := needFallback && okFs;
    if okFs {
      report := Written(path.base, val, tag, suffix);
    } else {
      report := FsUnchanged(path.base, val, tag);
    }
  }

  /** The argument list of step 1, assembled as the writer does: the
      filesystem dates, then the container's own date fields, then the file. */
  method BuildWriteCommand(path: Path, tag: string) returns (cmd: seq<string>)
    ensures cmd == WriteCommand(path, tag)
  {
    cmd := ["exiftool", "-overwrite_original"];
    cmd := cmd + ["-FileCreateDate<" + tag, "-FileModifyDate<" + tag];
    if IsVideo(path) {
      cmd := cmd + ["-CreateDate<" + tag, "-ModifyDate<" + tag,
                    "-MediaCreateDate<" + tag, "-TrackCreateDate<" + tag];
    } else {
      cmd := cmd + ["-CreateDate<" + tag, "-ModifyDate<" + tag, "-AllDates<" + tag];
    }
    cmd := cmd + [Full(path)];
    CopyArgsSpelled(tag);
  }

  /** Steps 1 to 3 of `set_file_times_from_best` for a resolved date: the
      ExifTool write, the first verification, the SetFile fallback and the
      final verification. */
  method WriteAndVerify(path: Path, r: Resolved, env: FileEnv, hasSetFile: bool)
    returns (ok: bool, report: Report, calls: seq<Invocation>)
    requires IsCanonical(r.value)
    ensures Outcome(ok, report, calls) == WriteOutcome(path, r, ParseTimestamp(r.value), env, hasSetFile)
  {
    var tag, val := r.tag, r.value;

    // 1) write metadata and filesystem dates with ExifTool
    var cmd := BuildWriteCommand(path, tag);
    calls := [ExifTool(cmd)];
    if !env.writeSucceeds {
      return false, WriteFailed(path.base, Strip(env.writeOutput)), calls;
    }

    // 2) the target instant; the metadata is written even when it does not parse
    var target := ParseTimestamp(val);
    if target.None? {
      return true, Unparseable(path.base, val, tag), calls;
    }

    // 3) verify, fall back to SetFile, verify again
    var more;
    report, more := VerifyAndRepair(path, r, target.value, env, hasSetFile);
    calls := calls + more;
    ok := true;
  }

  /** `set_file_times_from_best`: resolve the date, then preview it (dry run)
      or write and verify it. `calls` lists the tool runs in order. */
  method SetFileTimesFromBest(path: Path, dryRun: bool, env: FileEnv, hasSetFile: bool)
    returns (ok: bool, report: Report, calls: seq<Invocation>)
    ensures Outcome(ok, report, calls) == FileOutcome(path, dryRun, env, hasSetFile)
  {
    var best := GetBestDatetime(env.metadata);
    if best.None? {
      return false, NoUsableDate(path.base, TagCandidates), [];
    }
    if dryRun {
      var what := if IsVideo(path) then "FileCreate/Modify + QuickTime" else "FileCreate/Modify + EXIF";
      return true, Preview(path.base, what, best.value.value, best.value.tag), [];
    }
    ok, report, calls := WriteAndVerify(path, best.value, env, hasSetFile);
  }

  // ---------------------------------------------------------------- what one file amounts to

  /** Whether `set_file_times_from_best` reports success for a file: a date
      was found, and either nothing is written or the write exits 0. A
      filesystem time that stays off is reported but still counts as done. */
  predicate FileSucceeds(env: FileEnv, dryRun: bool) {
    GetBestDatetime(env.metadata).Some? && (dryRun || env.writeSucceeds)
  }

  /** What every write-and-verify run shares: the write comes first, its
      exit status is the success flag, the report names the file, and only
      a write that exited 0 for a parsed date goes on to the fallback. */
  lemma WriteOutcomeFacts(path: Path, r: Resolved, target: Option<Instant>, env: FileEnv, hasSetFile: bool)
    requires IsCanonical(r.value)
    ensures var o := WriteOutcome(path, r, target, env, hasSetFile);
            && o.ok == env.writeSucceeds
            && o.report.file == path.base
            && |o.calls| >= 1 && o.calls[0] == ExifTool(WriteCommand(path, r.tag))
            && (!env.writeSucceeds || target.None? ==> |o.calls| == 1)
            && (env.writeSucceeds && target.Some? ==>
                  var repair := RepairOutcome(path, r, target.value, env, hasSetFile);
                  o.report == repair.report && o.calls[1..] == repair.calls)
  {
    if env.writeSucceeds && target.Some? {
      var repair := RepairOutcome(path, r, target.value, env, hasSetFile);
      assert ([ExifTool(WriteCommand(path, r.tag))] + repair.calls)[1..] == repair.calls;
    }
  }

  /** A SetFile run in a write-and-verify run comes after a write that
      exited 0 for a parsed date whose times were off, with SetFile
      installed: first the creation date, then, once that exited 0, the
      modification date. */
  lemma WriteSetFileRuns(path: Path, r: Resolved, target: Option<Instant>, env: FileEnv, hasSetFile: bool, i: nat)
    requires IsCanonical(r.value)
    requires i < |WriteOutcome(path, r, target, env, hasSetFile).calls|
    requires WriteOutcome(path, r, target, env, hasSetFile).calls[i].SetFile?
    ensures env.writeSucceeds && hasSetFile && target.Some? && !FsMatches(env.afterWrite, target.value)
    ensures i == 1 || (i == 2 && env.setCreateSucceeds)
    ensures WriteOutcome(path, r, target, env, hasSetFile).calls[i].args[0] == if i == 1 then "-d" else "-m"
  {
    var calls := WriteOutcome(path, r, target, env, hasSetFile).calls;
    WriteOutcomeFacts(path, r, target, env, hasSetFile);
    if env.writeSucceeds && target.Some? {
      var more := FallbackCalls(path, r.value, env, hasSetFile, !FsMatches(env.afterWrite, target.value));
      FallbackCallsShape(path, r.value, env, hasSetFile, !FsMatches(env.afterWrite, target.value));
      assert calls[i] == calls[1..][i - 1] == more[i - 1];
    }
  }

  /** The success flag is exactly `FileSucceeds`, and the report always names
      the file. */
  lemma FileOutcomeSucceeds(path: Path, dryRun: bool, env: FileEnv, hasSetFile: bool)
    ensures FileOutcome(path, dryRun, env, hasSetFile).ok <==> FileSucceeds(env, dryRun)
    ensures FileOutcome(path, dryRun, env, hasSetFile).report.file == path.base
  {
    var best := GetBestDatetime(env.metadata);
    if best.Some? && !dryRun {
      WriteOutcomeFacts(path, best.value, ParseTimestamp(best.value.value), env, hasSetFile);
    }
  }

  /** No usable date: the file is reported with the tag list and nothing runs. */
  lemma UnresolvedRunsNothing(path: Path, dryRun: bool, env: FileEnv, hasSetFile: bool)
    ensures GetBestDatetime(env.metadata).None? ==>
              FileOutcome(path, dryRun, env, hasSetFile) == Outcome(false, NoUsableDate(path.base, TagCandidates), [])
  {
  }

  /** A dry run runs no tool; with a date it previews the date and its tag. */
  lemma DryRunRunsNothing(path: Path, env: FileEnv, hasSetFile: bool)
    ensures FileOutcome(path, true, env, hasSetFile).calls == []
    ensures GetBestDatetime(env.metadata).Some? ==>
              var r := GetBestDatetime(env.metadata).value;
              FileOutcome(path, true, env, hasSetFile).report == Preview(path.base, PreviewFields(path), r.value, r.tag)
  {
  }

  /** Otherwise the ExifTool write is the first run, and a failed write is
      the only run. */
  lemma WriteComesFirst(path: Path, env: FileEnv, hasSetFile: bool)
    requires GetBestDatetime(env.metadata).Some?
    ensures var o := FileOutcome(path, false, env, hasSetFile);
            |o.calls| >= 1 && o.calls[0] == ExifTool(WriteCommand(path, GetBestDatetime(env.metadata).value.tag))
    ensures !env.writeSucceeds ==>
              FileOutcome(path, false, env, hasSetFile)
              == Outcome(false, WriteFailed(path.base, Strip(env.writeOutput)),
                         [ExifTool(WriteCommand(path, GetBestDatetime(env.metadata).value.tag))])
  {
    var r := GetBestDatetime(env.metadata).value;
    WriteOutcomeFacts(path, r, ParseTimestamp(r.value), env, hasSetFile);
  }

  /** The instant the resolved date stands for, when there is one and
      `strptime` accepts it. */
  function BestTarget(md: Metadata): (t: Option<Instant>)
    ensures t.Some? ==> GetBestDatetime(md).Some?
  {
    match GetBestDatetime(md)
    case None => None
    case Some(r) => ParseTimestamp(r.value)
  }

  /** SetFile runs only after a write that exited 0 for a date that parsed,
      when the times read back are off, and only when SetFile is installed;
      the creation date is set first, and the modification date only after
      that run exits 0. */
  lemma SetFileOnlyAfterFailedCheck(path: Path, dryRun: bool, env: FileEnv, hasSetFile: bool, i: nat)
    requires i < |FileOutcome(path, dryRun, env, hasSetFile).calls|
    requires FileOutcome(path, dryRun, env, hasSetFile).calls[i].SetFile?
    ensures !dryRun && env.writeSucceeds && hasSetFile
    ensures BestTarget(env.metadata).Some? && !FsMatches(env.afterWrite, BestTarget(env.metadata).value)
    ensures i == 1 || (i == 2 && env.setCreateSucceeds)
    ensures FileOutcome(path, dryRun, env, hasSetFile).calls[i].args[0] == if i == 1 then "-d" else "-m"
  {
    DryRunRunsNothing(path, env, hasSetFile);
    UnresolvedRunsNothing(path, dryRun, env, hasSetFile);
    var r := GetBestDatetime(env.metadata).value;
    WriteSetFileRuns(path, r, ParseTimestamp(r.value), env, hasSetFile, i);
  }

  /** The "(SetFile fallback)" suffix appears exactly when the write left the
      times off and the fallback put both of them on target; a file whose
      times stay off is still reported, not failed. */
  lemma FallbackSuffix(path: Path, env: FileEnv, hasSetFile: bool)
    requires BestTarget(env.metadata).Some? && env.writeSucceeds
    ensures var o := FileOutcome(path, false, env, hasSetFile);
            var target := BestTarget(env.metadata).value;
            && o.ok
            && o.report.Written? == (FsMatches(env.afterWrite, target) || FallbackRepairs(env, hasSetFile, target))
            && (o.report.Written? ==> (o.report.viaSetFile <==> !FsMatches(env.afterWrite, target)))
  {
    var r := GetBestDatetime(env.metadata).value;
    WriteOutcomeFacts(path, r, ParseTimestamp(r.value), env, hasSetFile);
  }

  /** How many of `files` the writer reports as done. */
  function CountSucceeding(files: seq<Path>, env: Path -> FileEnv, dryRun: bool): (n: nat)
    ensures n <= |files|
  {
    if files == [] then 0
    else CountSucceeding(files[..|files| - 1], env, dryRun)
         + (if FileSucceeds(env(files[|files| - 1]), dryRun) then 1 else 0)
  }

  /** The status line of each of `files`, in order. */
  function Reports(files: seq<Path>, dryRun: bool, env: Path -> FileEnv, hasSetFile: bool): (r: seq<Report>)
    ensures |r| == |files|
    ensures forall k :: 0 <= k < |files| ==> r[k] == FileOutcome(files[k], dryRun, env(files[k]), hasSetFile).report
  {
    seq(|files|, k requires 0 <= k < |files| => FileOutcome(files[k], dryRun, env(files[k]), hasSetFile).report)
  }

  lemma CountSucceedingSnoc(files: seq<Path>, env: Path -> FileEnv, dryRun: bool, i: nat)
    requires i < |files|
    ensures CountSucceeding(files[..i + 1], env, dryRun)
            == CountSucceeding(files[..i], env, dryRun) + (if FileSucceeds(env(files[i]), dryRun) then 1 else 0)
  {
    assert files[..i + 1][..i] == files[..i];
  }

  /** Why a whole batch is refused before any file is looked at. */
  datatype BatchError = ExifToolNotFound

  /** `fix_dates_in_folder`: run the writer on every eligible file and count
      successes and failures; `printed` holds the status line of each file in
      order. `env(p)` is what the tools answer for file `p`. */
  method FixDatesInFolder(listing: seq<DirEntry>, recursive: bool, dryRun: bool,
                          hasExifTool: bool, hasSetFile: bool, env: Path -> FileEnv)
    returns (result: Result<(nat, nat), BatchError>, printed: seq<Report>)
    ensures !hasExifTool ==> result == Failure(ExifToolNotFound) && printed == []
    ensures hasExifTool ==> result.Success?
    ensures result.Success? ==>
              var files := IterFiles(listing, recursive);
              && result.value.0 + result.value.1 == |files|
              && result.value.0 == CountSucceeding(files, env, dryRun)
              && |printed| == |files|
              && forall i :: 0 <= i < |files| ==>
                   printed[i] == FileOutcome(files[i], dryRun, env(files[i]), hasSetFile).report
  {
    if !hasExifTool {
      return Failure(ExifToolNotFound), [];
    }
    var files := IterFiles(listing, recursive);
    ghost var reports := Reports(files, dryRun, env, hasSetFile);
    var ok, fail := 0, 0;
    printed := [];
    for i := 0 to |files|
      invariant ok + fail == i
      invariant ok == CountSucceeding(files[..i], env, dryRun)
      invariant printed == reports[..i]
    {
      var success, msg, _ := SetFileTimesFromBest(files[i], dryRun, env(files[i]), hasSetFile);
      FileOutcomeSucceeds(files[i], dryRun, env(files[i]), hasSetFile);
      CountSucceedingSnoc(files, env, dryRun, i);
      assert msg == reports[i];
      SliceSnoc(reports, i);
      printed := printed + [msg];
      if success {
        ok := ok + 1;
      } else {
        fail := fail + 1;
      }
    }
    SliceAll(files);
    SliceAll(reports);
    result := Success((ok, fail));
  }
}
