/** Reading a category listing: `get_simfile_ids_from_category` and
    `get_last_updated_from_category`. The parsed page is given as its `<a>`
    elements in document order; for each, the model keeps its `id` and
    `href` attributes, its text, and the texts of the cells of the table row
    that encloses it. */
module CategoryPage {
  import opened Text
  import opened Results
  import opened RelativeDate

  /** An `<a>` element of the listing: its `id` and `href` attributes when
      present, its text, and the cells of the closest enclosing `<tr>`
      (each cell as `get_text(strip=True)` gives it), or `None` when the
      anchor is in no table row. */
  datatype Anchor = Anchor(id: Option<string>, href: Option<string>, text: string, row: Option<seq<string>>)

  /** One simfile of the listing: its numeric id, its name and when it was
      last updated. */
  datatype Entry = Entry(simfileId: string, simfileName: string, lastUpdated: Instant)

  const LinkPrefix: string := "viewsimfile.php?simfileid="

  /** The digits of an element id of the form `^sim(\d+)$`. In Python `$`
      also matches just before a final newline, so "sim12\n" has the form
      too. */
  function ElementIdDigits(id: string): (r: Option<string>)
    ensures r.Some? ==> |r.value| > 0 && AllDigits(r.value)
    ensures r.Some? ==> id == "sim" + r.value || id == "sim" + r.value + "\n"
  {
    if !("sim" <= id) then None
    else
      var digits := if |id| > 3 && id[|id| - 1] == '\n' then id[3..|id| - 1] else id[3..];
      if |digits| > 0 && AllDigits(digits) then
        assert id == "sim" + id[3..];
        assert |id| > 3 && id[|id| - 1] == '\n' ==> id[3..] == digits + "\n";
        Some(digits)
      else None
  }

  /** Both spellings of a simfile element id are recognised. */
  lemma ElementIdForms(digits: string)
    requires |digits| > 0 && AllDigits(digits)
    ensures ElementIdDigits("sim" + digits) == Some(digits)
    ensures ElementIdDigits("sim" + digits + "\n") == Some(digits)
  {
    var plain, newline := "sim" + digits, "sim" + digits + "\n";
    assert "sim" <= plain && plain[3..] == digits;
    assert plain[|plain| - 1] == digits[|digits| - 1];
    assert "sim" <= newline && newline[3..|newline| - 1] == digits;
  }

  /** `re.match(r'^viewsimfile\.php\?simfileid=(\d+)', href)`: the digit
      run after the link prefix. */
  function SimfileIdOf(href: string): (r: Option<string>)
    ensures r.None? <==> !(LinkPrefix <= href && |href| > |LinkPrefix| && IsDigit(href[|LinkPrefix|]))
    ensures r.Some? ==> |r.value| > 0 && AllDigits(r.value) && LinkPrefix + r.value <= href
    ensures r.Some? && |LinkPrefix + r.value| < |href| ==> !IsDigit(href[|LinkPrefix + r.value|])
  {
    if !(LinkPrefix <= href) then None
    else
      var tail := href[|LinkPrefix|..];
      var n := Span(tail, IsDigit);
      if n == 0 then None
      else
        assert href == LinkPrefix + tail;
        assert LinkPrefix + tail[..n] == href[..|LinkPrefix| + n];
        assert tail[0] == href[|LinkPrefix|];
        assert n < |tail| ==> tail[n] == href[|LinkPrefix| + n];
        assert AllDigits(tail[..n]) by {
          forall i | 0 <= i < n ensures IsDigit(tail[..n][i]) { assert tail[..n][i] == tail[i]; }
        }
        Some(tail[..n])
  }

  /** The id is the whole digit run after the prefix, whatever follows it. */
  lemma SimfileIdOfLink(digits: string, rest: string)
    requires |digits| > 0 && AllDigits(digits)
    requires rest == [] || !IsDigit(rest[0])
    ensures SimfileIdOf(LinkPrefix + digits + rest) == Some(digits)
  {
    var href := LinkPrefix + digits + rest;
    assert href == LinkPrefix + (digits + rest);
    assert href[|LinkPrefix|..] == digits + rest;
    SpanOfRun(digits, rest, IsDigit);
    assert (digits + rest)[..|digits|] == digits;
  }

  /** An anchor whose `href` starts with a simfile link. */
  predicate HasSimfileLink(a: Anchor) {
    a.href.Some? && SimfileIdOf(a.href.value).Some?
  }

  /** The anchors with a simfile link, in document order. */
  function Linked(anchors: seq<Anchor>): (r: seq<Anchor>)
    ensures |r| <= |anchors|
  {
    if anchors == [] then []
    else if HasSimfileLink(anchors[0]) then [anchors[0]] + Linked(anchors[1..])
    else Linked(anchors[1..])
  }

  /** `get_simfile_ids_from_category`, as a specification: the simfile id
      of every anchor with an `href` that starts with a simfile link, in
      document order. */
  function SimfileIds(anchors: seq<Anchor>): (ids: seq<string>)
    ensures |ids| <= |anchors|
    ensures forall i :: 0 <= i < |ids| ==> |ids[i]| > 0 && AllDigits(ids[i])
  {
    if anchors == [] then []
    else
      var a := anchors[0];
      if HasSimfileLink(a) then [SimfileIdOf(a.href.value).value] + SimfileIds(anchors[1..])
      else SimfileIds(anchors[1..])
  }

  /** The collected ids are those of the anchors with a simfile link, one
      each and in document order. */
  lemma {:induction false} SimfileIdsOfLinked(anchors: seq<Anchor>)
    ensures |SimfileIds(anchors)| == |Linked(anchors)|
    ensures forall i :: 0 <= i < |Linked(anchors)| ==>
      HasSimfileLink(Linked(anchors)[i]) && SimfileIds(anchors)[i] == SimfileIdOf(Linked(anchors)[i].href.value).value
    decreases |anchors|
  {
    if anchors != [] {
      var rest := anchors[1..];
      SimfileIdsOfLinked(rest);
      var a := anchors[0];
      if HasSimfileLink(a) {
        var ids, links := SimfileIds(anchors), Linked(anchors);
        assert ids == [SimfileIdOf(a.href.value).value] + SimfileIds(rest);
        assert links == [a] + Linked(rest);
        forall i | 0 < i < |links|
          ensures HasSimfileLink(links[i]) && ids[i] == SimfileIdOf(links[i].href.value).value
        {
          assert links[i] == Linked(rest)[i - 1] && ids[i] == SimfileIds(rest)[i - 1];
        }
      }
    }
  }

  /** An id is collected exactly when some anchor's `href` is a simfile link
      with that id. */
  lemma {:induction false} SimfileIdsMembership(anchors: seq<Anchor>, x: string)
    ensures x in SimfileIds(anchors) <==>
      exists a :: a in anchors && HasSimfileLink(a) && SimfileIdOf(a.href.value) == Some(x)
    decreases |anchors|
  {
    if anchors != [] {
      var a, rest := anchors[0], anchors[1..];
      SimfileIdsMembership(rest, x);
      assert forall b :: b in anchors <==> b == a || b in rest;
      if x in SimfileIds(anchors) && !(HasSimfileLink(a) && SimfileIdOf(a.href.value) == Some(x)) {
        assert x in SimfileIds(rest);
      }
    }
  }

  /** `get_simfile_ids_from_category`: appends the id of each matching link
      while walking the anchors that have an `href`. */
  method GetSimfileIdsFromCategory(anchors: seq<Anchor>) returns (ids: seq<string>)
    ensures ids == SimfileIds(anchors)
  {
    ids := [];
    for i := 0 to |anchors|
      invariant SimfileIds(anchors) == ids + SimfileIds(anchors[i..])
    {
      assert anchors[i..][1..] == anchors[i + 1..];
      var a := anchors[i];
      if a.href.Some? {
        var m := SimfileIdOf(a.href.value);
        if m.Some? {
          ids := ids + [m.value];
        }
      }
    }
    assert anchors[|anchors|..] == [];
  }

  /** Whether `get_last_updated_from_category` reports an anchor: its id
      has the simfile form and its `href` starts with a simfile link. */
  predicate Listed(a: Anchor) {
    a.id.Some? && ElementIdDigits(a.id.value).Some? && HasSimfileLink(a)
  }

  /** The listed anchors, in document order. */
  function Kept(anchors: seq<Anchor>): (r: seq<Anchor>)
    ensures |r| <= |anchors|
  {
    if anchors == [] then []
    else if Listed(anchors[0]) then [anchors[0]] + Kept(anchors[1..])
    else Kept(anchors[1..])
  }

  /** How a cell's text is read as a date; the scraper uses
      `parse_relative_date` with a fixed `now` (see `CellDates`). */
  type DateParser = string -> Result<Option<Instant>>

  /** `parse_relative_date` applied to a cell's text. */
  function CellDates(now: Instant): DateParser {
    cell => ParseRelativeDate(cell, now)
  }

  /** Index of the first cell, left to right, that parses to a date or
      raises; `|cells|` when every cell parses to `None`. */
  function FirstHit(cells: seq<string>, parse: DateParser): (k: nat)
    ensures k <= |cells|
    ensures forall j :: 0 <= j < k ==> parse(cells[j]) == Ok(None)
    ensures k < |cells| ==> parse(cells[k]) != Ok(None)
  {
    if cells == [] || parse(cells[0]) != Ok(None) then 0
    else 1 + FirstHit(cells[1..], parse)
  }

  /** The date a listed row contributes. A row with cells takes the first
      cell that parses; none parsing is an error. A row without cells keeps
      whatever date the previous listed row left behind, and there is none
      before the first one. */
  function RowDate(cells: seq<string>, parse: DateParser, prev: Option<Instant>, id: string, name: string): Result<Instant>
  {
    if cells == [] then
      if prev.Some? then Ok(prev.value) else Err(DateUnbound)
    else
      var k := FirstHit(cells, parse);
      if k == |cells| then Err(NoDateFound(id, name))
      else
        var parsed := parse(cells[k]);
        if parsed.Err? then Err(parsed.error) else Ok(parsed.value.value)
  }

  /** Puts `acc` in front of a successful result; an error stays as it is. */
  function Prepend(acc: seq<Entry>, r: Result<seq<Entry>>): Result<seq<Entry>> {
    if r.Ok? then Ok(acc + r.value) else r
  }

  lemma PrependNothing(r: Result<seq<Entry>>)
    ensures Prepend([], r) == r
  {
    if r.Ok? {
      assert [] + r.value == r.value;
    }
  }

  lemma PrependTwice(acc: seq<Entry>, e: Entry, r: Result<seq<Entry>>)
    ensures Prepend(acc, Prepend([e], r)) == Prepend(acc + [e], r)
  {
    if r.Ok? {
      assert acc + ([e] + r.value) == acc + [e] + r.value;
    }
  }

  /** `get_last_updated_from_category`, as a specification. `prev` is the
      date the previous listed row left in the loop's date variable. */
  function Extract(anchors: seq<Anchor>, parse: DateParser, prev: Option<Instant>): Result<seq<Entry>>
    decreases |anchors|
  {
    if anchors == [] then Ok([])
    else
      var a := anchors[0];
      if a.id.None? || ElementIdDigits(a.id.value).None? then Extract(anchors[1..], parse, prev)
      else if a.href.None? then Err(MissingHref)
      else match SimfileIdOf(a.href.value)
        case None => Extract(anchors[1..], parse, prev)
        case Some(id) =>
          if a.row.None? then Err(NoEnclosingRow)
          else match RowDate(a.row.value, parse, prev, id, Strip(a.text))
            case Err(e) => Err(e)
            case Ok(t) => Prepend([Entry(id, Strip(a.text), t)], Extract(anchors[1..], parse, Some(t)))
  }

  /** The loop variable `last_updated_dt`: never assigned yet, or holding
      the last value `parse_relative_date` returned. */
  datatype Binding = Unbound | Bound(value: Option<Instant>)

  function Remembered(b: Binding): Option<Instant> {
    if b.Bound? then b.value else None
  }

  /** `get_last_updated_from_category`, with the cells read by
      `parse_relative_date` at the moment `now`. */
  method GetLastUpdatedFromCategory(anchors: seq<Anchor>, now: Instant) returns (r: Result<seq<Entry>>)
    ensures r == Extract(anchors, CellDates(now), None)
  {
    r := ScanListing(anchors, CellDates(now));
  }

  /** The loop of `get_last_updated_from_category`, for any way of reading a
      cell: walks the anchors with a simfile element id; for each whose
      `href` is a simfile link, scans the cells of its row until one parses,
      and appends an entry. The date variable is not reset between rows. */
  method ScanListing(anchors: seq<Anchor>, parse: DateParser) returns (r: Result<seq<Entry>>)
    ensures r == Extract(anchors, parse, None)
  {
    var info: seq<Entry> := [];
    var last := Unbound;
    var i := 0;
    assert anchors[0..] == anchors;
    PrependNothing(Extract(anchors, parse, None));
    while i < |anchors|
      invariant 0 <= i <= |anchors|
      invariant last.Bound? ==> last.value.Some?
      invariant Extract(anchors, parse, None) == Prepend(info, Extract(anchors[i..], parse, Remembered(last)))
    {
      assert anchors[i..][1..] == anchors[i + 1..];
      var a := anchors[i];
      if a.id.Some? && ElementIdDigits(a.id.value).Some? {
        if a.href.None? {
          return Err(MissingHref);
        }
        var m := SimfileIdOf(a.href.value);
        if m.Some? {
          var id, name := m.value, Strip(a.text);
          if a.row.None? {
            return Err(NoEnclosingRow);
          }
          var scanned := ScanRow(a.row.value, parse, last);
          if scanned.Err? {
            return Err(scanned.error);
          }
          last := scanned.value;
          match last {
            case Unbound =>
              return Err(DateUnbound);
            case Bound(None) =>
              return Err(NoDateFound(id, name));
            case Bound(Some(t)) =>
              PrependTwice(info, Entry(id, name, t), Extract(anchors[i + 1..], parse, Some(t)));
              info := info + [Entry(id, name, t)];
          }
        }
      }
      i := i + 1;
    }
    assert anchors[|anchors|..] == [];
    assert info + [] == info;
    r := Ok(info);
  }

  /** The inner loop of `get_last_updated_from_category`: parses the row's
      cells left to right and stops at the first date. The date variable
      ends as the last parse left it, and is untouched when the row has no
      cells; a parse error propagates. */
  method ScanRow(cells: seq<string>, parse: DateParser, last: Binding) returns (r: Result<Binding>)
    ensures cells == [] ==> r == Ok(last)
    ensures cells != [] && FirstHit(cells, parse) == |cells| ==> r == Ok(Bound(None))
    ensures FirstHit(cells, parse) < |cells| ==>
      r == (if parse(cells[FirstHit(cells, parse)]).Err? then Err(parse(cells[FirstHit(cells, parse)]).error)
            else Ok(Bound(parse(cells[FirstHit(cells, parse)]).value)))
  {
    var current := last;
    var j := 0;
    while j < |cells|
      invariant 0 <= j <= |cells|
      invariant FirstHit(cells, parse) >= j
      invariant if j == 0 then current == last else current == Bound(None)
    {
      var parsed := parse(cells[j]);
      if parsed.Err? {
        return Err(parsed.error);
      }
      current := Bound(parsed.value);
      if parsed.value.Some? {
        break;
      }
      j := j + 1;
    }
    r := Ok(current);
  }

  /** The date a listed row is expected to carry: that of its first cell
      that parses, or, for a row without cells, the previous one. */
  function RowStamp(cells: seq<string>, parse: DateParser, prev: Option<Instant>): Option<Instant> {
    if cells == [] then prev
    else
      var k := FirstHit(cells, parse);
      if k < |cells| && parse(cells[k]).Ok? then parse(cells[k]).value else None
  }

  /** The entry a listed anchor yields: the id from its link, its stripped
      text as the name, and the date of its row; `None` for an anchor that
      yields no entry. */
  function ExpectedEntry(a: Anchor, parse: DateParser, prev: Option<Instant>): Option<Entry> {
    if Listed(a) && a.row.Some? && RowStamp(a.row.value, parse, prev).Some? then
      Some(Entry(SimfileIdOf(a.href.value).value, Strip(a.text), RowStamp(a.row.value, parse, prev).value))
    else None
  }

  /** An anchor that is not listed contributes nothing to a successful
      extraction and leaves the carried date alone. */
  lemma SkippedAnchor(anchors: seq<Anchor>, parse: DateParser, prev: Option<Instant>)
    requires anchors != [] && !Listed(anchors[0])
    requires Extract(anchors, parse, prev).Ok?
    ensures Extract(anchors, parse, prev) == Extract(anchors[1..], parse, prev)
    ensures Kept(anchors) == Kept(anchors[1..])
  {
  }

  /** A listed anchor at the head of a successful extraction gives its first
      entry. */
  lemma ListedHead(anchors: seq<Anchor>, parse: DateParser, prev: Option<Instant>, es: seq<Entry>)
    requires anchors != [] && Listed(anchors[0])
    requires Extract(anchors, parse, prev) == Ok(es)
    ensures es != [] && ExpectedEntry(anchors[0], parse, prev) == Some(es[0])
    ensures Kept(anchors) != [] && Kept(anchors)[0] == anchors[0]
  {
    var a := anchors[0];
    var id := SimfileIdOf(a.href.value).value;
    var t := RowDate(a.row.value, parse, prev, id, Strip(a.text)).value;
    assert es[0] == Entry(id, Strip(a.text), t);
  }

  /** After a listed anchor at the head of a successful extraction, the rest
      is extracted with its entry's date carried. */
  lemma ListedTail(anchors: seq<Anchor>, parse: DateParser, prev: Option<Instant>, es: seq<Entry>)
    requires anchors != [] && Listed(anchors[0])
    requires Extract(anchors, parse, prev) == Ok(es)
    ensures es != [] && Extract(anchors[1..], parse, Some(es[0].lastUpdated)) == Ok(es[1..])
    ensures Kept(anchors) == [anchors[0]] + Kept(anchors[1..])
  {
    var a := anchors[0];
    var id := SimfileIdOf(a.href.value).value;
    var t := RowDate(a.row.value, parse, prev, id, Strip(a.text)).value;
    var tail := Extract(anchors[1..], parse, Some(t));
    assert tail.Ok? && es == [Entry(id, Strip(a.text), t)] + tail.value;
    assert es[1..] == tail.value;
  }

  /** A successful extraction has one entry per listed anchor. */
  lemma {:induction false} EntryCount(anchors: seq<Anchor>, parse: DateParser, prev: Option<Instant>, es: seq<Entry>)
    requires Extract(anchors, parse, prev) == Ok(es)
    ensures |es| == |Kept(anchors)|
    decreases |anchors|
  {
    if anchors == [] {
    } else if !Listed(anchors[0]) {
      SkippedAnchor(anchors, parse, prev);
      EntryCount(anchors[1..], parse, prev, es);
    } else {
      ListedTail(anchors, parse, prev, es);
      EntryCount(anchors[1..], parse, Some(es[0].lastUpdated), es[1..]);
    }
  }

  /** The date the entry at index `i` finds in the date variable: `prev`
      for the first entry, the date of the entry before it otherwise. */
  function Carried(prev: Option<Instant>, es: seq<Entry>, i: nat): Option<Instant>
    requires i < |es|
  {
    if i == 0 then prev else Some(es[i - 1].lastUpdated)
  }

  /** The entry at index `i` describes the listed anchor at index `i` (the
      returned anchor), with the date the entry before it carries over (the
      returned date). */
  lemma {:induction false} EntryDescribes(anchors: seq<Anchor>, parse: DateParser, prev: Option<Instant>, es: seq<Entry>, i: nat)
    returns (a: Anchor, date: Option<Instant>)
    requires Extract(anchors, parse, prev) == Ok(es)
    requires i < |es|
    ensures i < |Kept(anchors)| && Kept(anchors)[i] == a && date == Carried(prev, es, i)
    ensures ExpectedEntry(a, parse, date) == Some(es[i])
    decreases |anchors|, 1
  {
    if !Listed(anchors[0]) {
      SkippedAnchor(anchors, parse, prev);
      a, date := EntryDescribes(anchors[1..], parse, prev, es, i);
    } else if i == 0 {
      ListedHead(anchors, parse, prev, es);
      a, date := anchors[0], prev;
    } else {
      a, date := LaterEntryDescribes(anchors, parse, prev, es, i);
    }
  }

  /** The entries after the first listed anchor's come from the rest of
      the listing, with that first entry's date carried into it. */
  lemma {:induction false} LaterEntryDescribes(anchors: seq<Anchor>, parse: DateParser, prev: Option<Instant>, es: seq<Entry>, i: nat)
    returns (a: Anchor, date: Option<Instant>)
    requires Extract(anchors, parse, prev) == Ok(es)
    requires anchors != [] && Listed(anchors[0]) && 0 < i < |es|
    ensures i < |Kept(anchors)| && Kept(anchors)[i] == a && date == Carried(prev, es, i)
    ensures ExpectedEntry(a, parse, date) == Some(es[i])
    decreases |anchors|, 0
  {
    ListedTail(anchors, parse, prev, es);
    a, date := EntryDescribes(anchors[1..], parse, Some(es[0].lastUpdated), es[1..], i - 1);
    assert es[1..][i - 1] == es[i];
  }

  /** A successful extraction has one entry per listed anchor, in document
      order; each entry's date is that of the first cell of its row that
      parses, or, when the row has no cells, the previous entry's date. */
  lemma EntriesFollowListedAnchors(anchors: seq<Anchor>, parse: DateParser, prev: Option<Instant>, es: seq<Entry>)
    requires Extract(anchors, parse, prev) == Ok(es)
    ensures |es| == |Kept(anchors)|
    ensures forall i :: 0 <= i < |es| ==> ExpectedEntry(Kept(anchors)[i], parse, Carried(prev, es, i)) == Some(es[i])
  {
    EntryCount(anchors, parse, prev, es);
    forall i | 0 <= i < |es|
      ensures ExpectedEntry(Kept(anchors)[i], parse, Carried(prev, es, i)) == Some(es[i])
    {
      var _, _ := EntryDescribes(anchors, parse, prev, es, i);
    }
  }

  /** Whatever the first anchor does, an error in the rest of the listing
      (with the date the first anchor leaves behind) is an error of the
      whole listing. */
  lemma TailErrorPropagates(anchors: seq<Anchor>, parse: DateParser, prev: Option<Instant>) returns (next: Option<Instant>)
    requires anchors != []
    ensures next == (
      var a := anchors[0];
      if Listed(a) && a.row.Some? && RowDate(a.row.value, parse, prev, SimfileIdOf(a.href.value).value, Strip(a.text)).Ok?
      then Some(RowDate(a.row.value, parse, prev, SimfileIdOf(a.href.value).value, Strip(a.text)).value)
      else prev)
    ensures Extract(anchors[1..], parse, next).Err? ==> Extract(anchors, parse, prev).Err?
  {
    var a := anchors[0];
    next := prev;
    if Listed(a) && a.row.Some? {
      var d := RowDate(a.row.value, parse, prev, SimfileIdOf(a.href.value).value, Strip(a.text));
      if d.Ok? {
        next := Some(d.value);
      }
    }
  }

  /** The case of the first anchor: no cell of its row parses, so its row
      has no date. */
  lemma UndatedFirstRowRaises(anchors: seq<Anchor>, parse: DateParser, prev: Option<Instant>)
    requires anchors != [] && Listed(anchors[0])
    requires anchors[0].row.Some? && anchors[0].row.value != []
    requires forall q :: 0 <= q < |anchors[0].row.value| ==> parse(anchors[0].row.value[q]) == Ok(None)
    ensures Extract(anchors, parse, prev).Err?
  {
    assert FirstHit(anchors[0].row.value, parse) == |anchors[0].row.value|;
  }

  /** A listed row whose cells all fail to parse makes the whole extraction
      fail, rather than being skipped. */
  lemma {:induction false} UndatedRowRaises(anchors: seq<Anchor>, i: nat, parse: DateParser, prev: Option<Instant>)
    requires i < |anchors| && Listed(anchors[i])
    requires anchors[i].row.Some? && anchors[i].row.value != []
    requires forall q :: 0 <= q < |anchors[i].row.value| ==> parse(anchors[i].row.value[q]) == Ok(None)
    ensures Extract(anchors, parse, prev).Err?
    decreases i, 1
  {
    if i == 0 {
      UndatedFirstRowRaises(anchors, parse, prev);
    } else {
      UndatedLaterRowRaises(anchors, i, parse, prev);
    }
  }

  /** The case of a later row: the rest of the listing fails, whatever date
      the first anchor leaves behind, and so the whole listing does. */
  lemma {:induction false} UndatedLaterRowRaises(anchors: seq<Anchor>, i: nat, parse: DateParser, prev: Option<Instant>)
    requires 0 < i < |anchors| && Listed(anchors[i])
    requires anchors[i].row.Some? && anchors[i].row.value != []
    requires forall q :: 0 <= q < |anchors[i].row.value| ==> parse(anchors[i].row.value[q]) == Ok(None)
    ensures Extract(anchors, parse, prev).Err?
    decreases i, 0
  {
    assert anchors[1..][i - 1] == anchors[i];
    var next := TailErrorPropagates(anchors, parse, prev);
    UndatedRowRaises(anchors[1..], i - 1, parse, next);
  }

  /** An anchor the loop gets through: with a simfile element id it has an
      `href`, and if it is listed its row has cells, of which the first one
      that does not read as "no date" reads as a date. */
  predicate Extractable(a: Anchor, parse: DateParser) {
    && (a.id.Some? && ElementIdDigits(a.id.value).Some? ==> a.href.Some?)
    && (Listed(a) ==>
          && a.row.Some? && a.row.value != []
          && FirstHit(a.row.value, parse) < |a.row.value|
          && parse(a.row.value[FirstHit(a.row.value, parse)]).Ok?)
  }

  /** The converse of the error lemmas: a listing all of whose anchors the
      loop gets through yields entries, whatever date is carried in. */
  lemma {:induction false} ExtractSucceeds(anchors: seq<Anchor>, parse: DateParser, prev: Option<Instant>)
    requires forall k :: 0 <= k < |anchors| ==> Extractable(anchors[k], parse)
    ensures Extract(anchors, parse, prev).Ok?
    decreases |anchors|
  {
    if anchors != [] {
      var a := anchors[0];
      assert Extractable(a, parse);
      forall k | 0 <= k < |anchors[1..]|
        ensures Extractable(anchors[1..][k], parse)
      {
        assert anchors[1..][k] == anchors[k + 1];
      }
      if Listed(a) {
        var d := RowDate(a.row.value, parse, prev, SimfileIdOf(a.href.value).value, Strip(a.text));
        assert d.Ok?;
        ExtractSucceeds(anchors[1..], parse, Some(d.value));
      } else {
        ExtractSucceeds(anchors[1..], parse, prev);
      }
    }
  }

  /** With `parse_relative_date` reading the cells, a row's date is never
      after the moment of the scrape, provided the carried date is not. */
  lemma RowStampNotInFuture(cells: seq<string>, now: Instant, prev: Option<Instant>)
    requires prev.Some? ==> prev.value <= now
    ensures RowStamp(cells, CellDates(now), prev).Some? ==> RowStamp(cells, CellDates(now), prev).value <= now
  {
    if cells != [] {
      var k := FirstHit(cells, CellDates(now));
      if k < |cells| {
        assert CellDates(now)(cells[k]) == ParseRelativeDate(cells[k], now);
      }
    }
  }

  /** With `parse_relative_date` reading the cells, no entry is dated after
      the moment of the scrape. */
  lemma {:induction false} EntriesNotInFuture(anchors: seq<Anchor>, now: Instant, prev: Option<Instant>, es: seq<Entry>)
    requires prev.Some? ==> prev.value <= now
    requires Extract(anchors, CellDates(now), prev) == Ok(es)
    ensures forall i :: 0 <= i < |es| ==> es[i].lastUpdated <= now
    decreases |anchors|, 1
  {
    if anchors != [] {
      if !Listed(anchors[0]) {
        SkippedAnchor(anchors, CellDates(now), prev);
        EntriesNotInFuture(anchors[1..], now, prev, es);
      } else {
        ListedNotInFuture(anchors, now, prev, es);
      }
    }
  }

  /** The case of a listed first anchor: its own entry is dated by its row,
      and the rest carries that date on. */
  lemma {:induction false} ListedNotInFuture(anchors: seq<Anchor>, now: Instant, prev: Option<Instant>, es: seq<Entry>)
    requires prev.Some? ==> prev.value <= now
    requires Extract(anchors, CellDates(now), prev) == Ok(es)
    requires anchors != [] && Listed(anchors[0])
    ensures forall i :: 0 <= i < |es| ==> es[i].lastUpdated <= now
    decreases |anchors|, 0
  {
    ListedHead(anchors, CellDates(now), prev, es);
    RowStampNotInFuture(anchors[0].row.value, now, prev);
    ListedTail(anchors, CellDates(now), prev, es);
    EntriesNotInFuture(anchors[1..], now, Some(es[0].lastUpdated), es[1..]);
    forall i | 0 < i < |es| ensures es[i].lastUpdated <= now {
      assert es[i] == es[1..][i - 1];
    }
  }

  /** Every listed anchor's id is among the ids `get_simfile_ids_from_category`
      collects. */
  lemma {:induction false} ListedIdsAreLinkIds(anchors: seq<Anchor>)
    ensures forall a :: a in Kept(anchors) ==> Listed(a) && SimfileIdOf(a.href.value).value in SimfileIds(anchors)
    decreases |anchors|
  {
    if anchors != [] {
      ListedIdsAreLinkIds(anchors[1..]);
    }
  }

  /** So every entry of a successful extraction carries an id that
      `get_simfile_ids_from_category` also reports. */
  lemma EntryIdsAreLinkIds(anchors: seq<Anchor>, parse: DateParser, es: seq<Entry>)
    requires Extract(anchors, parse, None) == Ok(es)
    ensures forall i :: 0 <= i < |es| ==> es[i].simfileId in SimfileIds(anchors)
  {
    ListedIdsAreLinkIds(anchors);
    forall i | 0 <= i < |es| ensures es[i].simfileId in SimfileIds(anchors) {
      var _, _ := EntryDescribes(anchors, parse, None, es, i);
      assert Kept(anchors)[i] in Kept(anchors);
    }
  }
}
