/**
 * What the route list, a route card and the details modal show for a route:
 * transport labels and emoji, the recommendation badge, the transfer wording,
 * which card is selected and which details panel is open.
 */
module RouteDisplay {
  import opened Wrappers
  import Text
  import opened UiModel

  // ---------------------------------------------------------------------------
  // Route list
  // ---------------------------------------------------------------------------

  /** The Russian name of each known transport type. */
  const TypeLabels: map<string, string> := map[
    "air" := "самолёт",
    "rail" := "поезд",
    "bus" := "автобус",
    "river" := "водный транспорт",
    "ferry" := "паром"
  ]

  /** `TYPE_LABEL_RU[type] || type`: every label in the table is non-empty, so
    * the raw type shows exactly when the table has no entry for it. */
  function TypeLabel(kind: string): (r: string)
    ensures kind in TypeLabels ==> r == TypeLabels[kind]
    ensures kind !in TypeLabels ==> r == kind
  {
    if kind in TypeLabels && TypeLabels[kind] != "" then TypeLabels[kind] else kind
  }

  /** One block of the list: the route, whether its card is selected, and whether its details panel shows. */
  datatype RouteBlock = RouteBlock(route: UiRoute, selected: bool, detailsOpen: bool)

  /** The list shows either the "nothing found" line or one block per route. */
  datatype RouteListView = NothingFound | Blocks(blocks: seq<RouteBlock>)

  const NothingFoundText: string := "Маршруты не найдены"

  /** `activeRoute && activeRoute.id === r.id`. */
  predicate IsSelected(active: Option<UiRoute>, r: UiRoute) {
    active.Some? && active.value.id == r.id
  }

  /** `openDetailsRouteId === r.id`. */
  predicate IsOpen(openId: Option<string>, r: UiRoute) {
    openId == Some(r.id)
  }

  /** The route list for `data.routes` (`None` when `data` itself is missing). */
  function RouteList(routes: Option<seq<UiRoute>>, openId: Option<string>, active: Option<UiRoute>): (v: RouteListView)
    ensures v.NothingFound? <==> routes.None? || routes.value == []
    ensures v.Blocks? ==> |v.blocks| == |routes.value|
    ensures v.Blocks? ==> forall i :: 0 <= i < |v.blocks| ==>
      v.blocks[i].route == routes.value[i]
      && (v.blocks[i].selected <==> IsSelected(active, routes.value[i]))
      && (v.blocks[i].detailsOpen <==> IsOpen(openId, routes.value[i]))
  {
    if routes.None? || |routes.value| == 0 then NothingFound
    else
      var rs := routes.value;
      Blocks(seq(|rs|, i requires 0 <= i < |rs| => RouteBlock(rs[i], IsSelected(active, rs[i]), IsOpen(openId, rs[i]))))
  }

  /** Route ids are pairwise distinct. */
  predicate DistinctIds(rs: seq<UiRoute>) {
    forall i, j :: 0 <= i < j < |rs| ==> rs[i].id != rs[j].id
  }

  /** With distinct route ids, at most one card is selected and at most one details panel shows. */
  lemma {:induction false} AtMostOneHighlighted(routes: seq<UiRoute>, openId: Option<string>, active: Option<UiRoute>, i: int, j: int)
    requires DistinctIds(routes)
    requires RouteList(Some(routes), openId, active).Blocks?
    requires 0 <= i < j < |routes|
    ensures var bs := RouteList(Some(routes), openId, active).blocks;
      !(bs[i].selected && bs[j].selected) && !(bs[i].detailsOpen && bs[j].detailsOpen)
  {
    var bs := RouteList(Some(routes), openId, active).blocks;
    assert bs[i].route == routes[i] && bs[j].route == routes[j];
  }

  /** The route the page treats as active is the selected card whenever it is on the list. */
  lemma ActiveIsSelected(routes: seq<UiRoute>, openId: Option<string>, k: int)
    requires 0 <= k < |routes|
    ensures var v := RouteList(Some(routes), openId, Some(routes[k]));
      v.Blocks? && v.blocks[k].selected
  {
  }

  // ---------------------------------------------------------------------------
  // Route card
  // ---------------------------------------------------------------------------

  /** The badge texts of the three recommendation labels. */
  const LabelTexts: map<string, string> := map[
    "fastest" := "Самый быстрый",
    "cheapest" := "Самый дешёвый",
    "reliable" := "Самый надёжный"
  ]

  /** `route.recommended_label && labelText[route.recommended_label]`, shown only when truthy. */
  function Badge(tag: Option<string>): (b: Option<string>)
    ensures b.Some? <==> tag.Some? && tag.value in LabelTexts
    ensures b.Some? ==> b.value == LabelTexts[tag.value]
  {
    if tag.Some? && tag.value != "" && tag.value in LabelTexts && LabelTexts[tag.value] != "" then
      Some(LabelTexts[tag.value])
    else None
  }

  /** The emoji of each known transport type. */
  const TransportEmoji: map<string, string> := map[
    "air" := "\U{2708}\U{FE0F}",
    "rail" := "\U{1F686}",
    "bus" := "\U{1F68C}",
    "river" := "\U{1F6F3}\U{FE0F}",
    "ferry" := "\U{26F4}\U{FE0F}"
  ]

  /** `transportEmoji[type]`; an unknown type gives `undefined`, which `join` prints as the empty string. */
  function Emoji(kind: string): (e: string)
    ensures kind in TransportEmoji ==> e == TransportEmoji[kind]
    ensures kind !in TransportEmoji ==> e == ""
  {
    if kind in TransportEmoji then TransportEmoji[kind] else ""
  }

  /** No emoji holds a space. */
  lemma EmojiHasNoSpace(kind: string)
    ensures ' ' !in Emoji(kind)
  {
  }

  /** The emoji of each segment, in order. */
  function SegmentEmoji(segs: seq<UiSegment>): (es: seq<string>)
    ensures |es| == |segs|
    ensures forall i :: 0 <= i < |segs| ==> es[i] == Emoji(segs[i].kind)
  {
    seq(|segs|, i requires 0 <= i < |segs| => Emoji(segs[i].kind))
  }

  /** The card title's prefix: the segments' emoji joined by single spaces. */
  function EmojiRow(segs: seq<UiSegment>): string {
    Text.Join(SegmentEmoji(segs), " ")
  }

  /** The emoji row holds one entry per segment, in segment order: splitting it at
    * the spaces gives back each segment's emoji, an empty entry for an unknown type. */
  lemma EmojiRowParts(segs: seq<UiSegment>)
    requires |segs| > 0
    ensures Text.Split(EmojiRow(segs), ' ') == SegmentEmoji(segs)
  {
    var es := SegmentEmoji(segs);
    forall i | 0 <= i < |es|
      ensures ' ' !in es[i]
    {
      EmojiHasNoSpace(segs[i].kind);
    }
    Text.SplitJoin(es, ' ');
  }

  /** The full card title: emoji row, then "first origin → last destination". */
  function CardTitle(segs: seq<UiSegment>): string
    requires |segs| > 0
  {
    EmojiRow(segs) + " " + RouteTitle(segs)
  }

  /** "без пересадок", "1 пересадка", or "<n> пересадки", for `n` transfers: one fewer than the segments. */
  function TransfersText(n: int): string {
    if n == 0 then "без пересадок"
    else if n == 1 then "1 пересадка"
    else Text.IntToString(n) + " пересадки"
  }

  /** Only the "<n> пересадки" wording ends in "и"; the two fixed phrases differ in length. */
  lemma TransfersTextEnding(n: int)
    ensures var t := TransfersText(n);
      |t| > 0 && (t[|t| - 1] == 'и' <==> n != 0 && n != 1) && (n == 0 ==> |t| == 13) && (n == 1 ==> |t| == 11)
  {
  }

  /** The wording names the transfer count unambiguously: different counts read differently. */
  lemma TransfersTextInjective(m: int, n: int)
    requires TransfersText(m) == TransfersText(n)
    ensures m == n
  {
    TransfersTextEnding(m);
    TransfersTextEnding(n);
    var suffix := " пересадки";
    if m != 0 && m != 1 && n != 0 && n != 1 {
      var t := TransfersText(m);
      assert t[..|t| - |suffix|] == Text.IntToString(m);
      assert TransfersText(n)[..|t| - |suffix|] == Text.IntToString(n);
      Text.IntToStringInjective(m, n);
    }
  }

  /** A card as rendered: title, badge, transfer wording and one line per segment. */
  datatype Card = Card(title: string, badge: Option<string>, transfersText: string, items: seq<string>)

  /** `from_name → to_name`, the line the details modal shows for one segment. */
  function SegmentLine(s: UiSegment): string {
    s.fromName + Arrow + s.toName
  }

  /** The card's line for one segment: the modal's line, then ` · ` and the operator. */
  function CardLine(s: UiSegment): string {
    SegmentLine(s) + OperatorSeparator + s.operator
  }

  /** What the card puts between a segment's stops and its operator. */
  const OperatorSeparator: string := " · "

  /** `RouteCard` for a route; like the component, it needs at least one segment. */
  function RouteCard(r: UiRoute): (c: Card)
    requires |r.segments| > 0
    ensures c.badge == Badge(r.recommendedLabel)
    ensures c.transfersText == TransfersText(|r.segments| - 1)
    ensures |c.items| == |r.segments|
    ensures forall i :: 0 <= i < |r.segments| ==> c.items[i] == CardLine(r.segments[i])
  {
    var segs := r.segments;
    Card(CardTitle(segs), Badge(r.recommendedLabel), TransfersText(|segs| - 1), CardLines(segs))
  }

  /** The card's lines, one per segment in order. */
  function CardLines(segs: seq<UiSegment>): (ls: seq<string>)
    ensures |ls| == |segs| && forall i :: 0 <= i < |segs| ==> ls[i] == CardLine(segs[i])
  {
    seq(|segs|, i requires 0 <= i < |segs| => CardLine(segs[i]))
  }

  /** A direct route reads "без пересадок"; every other non-empty route names its transfer count. */
  lemma CardTransfers(r: UiRoute)
    requires |r.segments| > 0
    ensures RouteCard(r).transfersText == "без пересадок" <==> |r.segments| == 1
  {
    if |r.segments| != 1 {
      if TransfersText(|r.segments| - 1) == "без пересадок" {
        TransfersTextInjective(|r.segments| - 1, 0);
      }
    }
  }

  // ---------------------------------------------------------------------------
  // Route details modal
  // ---------------------------------------------------------------------------

  /** The modal: title, transfer wording and one line per segment. */
  datatype Modal = Modal(title: string, transfersText: string, items: seq<string>)

  /** `RouteDetailsModal` for a route whose `segments` field may be missing (`|| []`).
    * The title indexes `segments[0]`, so the component needs at least one segment. */
  function DetailsModal(segments: Option<seq<UiSegment>>): (m: Modal)
    requires |segments.GetOr([])| > 0
    ensures var segs := segments.GetOr([]);
      && m.title == RouteTitle(segs)
      && m.transfersText == TransfersText(|segs| - 1)
      && |m.items| == |segs|
      && forall i :: 0 <= i < |segs| ==> m.items[i] == SegmentLine(segs[i])
  {
    var segs := segments.GetOr([]);
    Modal(RouteTitle(segs), TransfersText(|segs| - 1), ModalLines(segs))
  }

  /** The modal's lines, one per segment in order. */
  function ModalLines(segs: seq<UiSegment>): (ls: seq<string>)
    ensures |ls| == |segs| && forall i :: 0 <= i < |segs| ==> ls[i] == SegmentLine(segs[i])
  {
    seq(|segs|, i requires 0 <= i < |segs| => SegmentLine(segs[i]))
  }

  /**
   * The modal and the card of the same route agree on its caption and transfer
   * wording; segment by segment, the card's line is the modal's line followed by
   * the operator, so it starts with the modal's line.
   */
  lemma ModalAgreesWithCard(r: UiRoute)
    requires |r.segments| > 0
    ensures var m, c := DetailsModal(Some(r.segments)), RouteCard(r);
      && m.transfersText == c.transfersText
      && c.title == EmojiRow(r.segments) + " " + m.title
      && |c.items| == |m.items|
      && forall i :: 0 <= i < |c.items| ==>
           && c.items[i] == m.items[i] + OperatorSeparator + r.segments[i].operator
           && c.items[i][..|m.items[i]|] == m.items[i]
  {
    var m, c := DetailsModal(Some(r.segments)), RouteCard(r);
    forall i | 0 <= i < |c.items|
      ensures c.items[i] == m.items[i] + OperatorSeparator + r.segments[i].operator
      ensures c.items[i][..|m.items[i]|] == m.items[i]
    {
      CardLineExtends(r.segments[i]);
    }
  }

  /** A card line is its segment's modal line with the operator appended. */
  lemma CardLineExtends(s: UiSegment)
    ensures CardLine(s) == SegmentLine(s) + OperatorSeparator + s.operator
    ensures CardLine(s)[..|SegmentLine(s)|] == SegmentLine(s)
  {
    assert CardLine(s) == SegmentLine(s) + (OperatorSeparator + s.operator);
  }
}
