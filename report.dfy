/**
 * The structure of the report built by `create_html_report`: one summary
 * row per screened stock, each linking to the anchor `#<ticker>`, and one
 * card with that id per stock whose daily image came back truthy, in table
 * order. The HTML and CSS text of the page and the file write are not
 * modelled; rows and cards are records.
 *
 * The per-stock result of `generate_stock_images` is an input, aligned
 * with the table (`images[i]` is what the call for `stocks[i]` returned).
 */
module Report {
  import opened Wrappers
  import opened Screener
  import opened Charts

  /** A `<tr>` of the summary table and the anchor its click navigates to. */
  datatype SummaryRow = SummaryRow(link: string, stock: Stock)

  /** A stock card: its element id, its title and the two embedded images. */
  datatype Card = Card(id: string, ticker: string, company: string, dailyImage: string, intradayImage: Option<string>)

  /** Python truthiness of a value that is `None` or a string. */
  predicate Truthy(image: Option<string>)
  {
    image.Some? && image.value != ""
  }

  function Anchor(ticker: string): string
  {
    "#" + ticker
  }

  lemma AnchorInjective(a: string, b: string)
    requires Anchor(a) == Anchor(b)
    ensures a == b
  {
    assert a == Anchor(a)[1..];
    assert b == Anchor(b)[1..];
  }

  function SummaryTable(stocks: seq<Stock>): (r: seq<SummaryRow>)
    ensures |r| == |stocks|
  {
    seq(|stocks|, i requires 0 <= i < |stocks| => SummaryRow(Anchor(stocks[i].ticker), stocks[i]))
  }

  /** The card for row `i`, if its daily image is truthy. */
  function CardAt(stocks: seq<Stock>, images: seq<ImagePair>, i: nat): Option<Card>
    requires i < |stocks| == |images|
  {
    if Truthy(images[i].daily)
    then Some(Card(stocks[i].ticker, stocks[i].ticker, stocks[i].company, images[i].daily.value, images[i].intraday))
    else None
  }

  /** Per row, its card if it gets one. */
  function CardSlots(stocks: seq<Stock>, images: seq<ImagePair>): (r: seq<Option<Card>>)
    requires |stocks| == |images|
    ensures |r| == |stocks|
  {
    seq(|stocks|, i requires 0 <= i < |stocks| => CardAt(stocks, images, i))
  }

  /** The cards of the report, in table order. */
  function Cards(stocks: seq<Stock>, images: seq<ImagePair>): seq<Card>
    requires |stocks| == |images|
  {
    Present(CardSlots(stocks, images))
  }

  /** The rows the cards come from. */
  function CardRows(stocks: seq<Stock>, images: seq<ImagePair>): seq<nat>
    requires |stocks| == |images|
  {
    PresentIndices(CardSlots(stocks, images))
  }

  /**
   * The cards are, in table order, exactly those of the rows whose daily
   * image is truthy; a card has its row's ticker as id and carries that
   * row's two images.
   */
  lemma CardsSpec(stocks: seq<Stock>, images: seq<ImagePair>)
    requires |stocks| == |images|
    ensures |Cards(stocks, images)| == |CardRows(stocks, images)|
    ensures forall k :: 0 <= k < |CardRows(stocks, images)| ==>
      var i, card := CardRows(stocks, images)[k], Cards(stocks, images)[k];
      i < |stocks| && Truthy(images[i].daily) && card.id == stocks[i].ticker &&
      card.ticker == stocks[i].ticker && card.company == stocks[i].company &&
      Some(card.dailyImage) == images[i].daily && card.intradayImage == images[i].intraday
    ensures forall k, l :: 0 <= k < l < |CardRows(stocks, images)| ==>
      CardRows(stocks, images)[k] < CardRows(stocks, images)[l]
    ensures forall i :: 0 <= i < |stocks| && Truthy(images[i].daily) ==> i in CardRows(stocks, images)
  {
    var slots := CardSlots(stocks, images);
    PresentSpec(slots);
    assert forall i :: 0 <= i < |stocks| ==> slots[i] == CardAt(stocks, images, i);
  }

  /** Some card has id `t` iff some row with ticker `t` has a truthy daily image. */
  lemma CardForTicker(stocks: seq<Stock>, images: seq<ImagePair>, t: string)
    requires |stocks| == |images|
    ensures (exists k :: 0 <= k < |Cards(stocks, images)| && Cards(stocks, images)[k].id == t)
        <==> (exists i :: 0 <= i < |stocks| && stocks[i].ticker == t && Truthy(images[i].daily))
  {
    var cards, src := Cards(stocks, images), CardRows(stocks, images);
    CardsSpec(stocks, images);
    if i :| 0 <= i < |stocks| && stocks[i].ticker == t && Truthy(images[i].daily) {
      var k :| 0 <= k < |src| && src[k] == i;
      assert cards[k].id == t;
    }
    if k :| 0 <= k < |cards| && cards[k].id == t {
      assert stocks[src[k]].ticker == t && Truthy(images[src[k]].daily);
    }
  }

  /** The anchors the summary table links to. */
  function Links(table: seq<SummaryRow>): set<string>
  {
    set r | r in table :: r.link
  }

  /** Every card's id is the anchor some summary row links to. */
  lemma CardsHaveRows(stocks: seq<Stock>, images: seq<ImagePair>)
    requires |stocks| == |images|
    ensures forall c :: c in Cards(stocks, images) ==> Anchor(c.id) in Links(SummaryTable(stocks))
  {
    var table, cards, src := SummaryTable(stocks), Cards(stocks, images), CardRows(stocks, images);
    CardsSpec(stocks, images);
    forall c | c in cards ensures Anchor(c.id) in Links(table) {
      var k :| 0 <= k < |cards| && cards[k] == c;
      assert table[src[k]] in table;
    }
  }

  /**
   * The link of summary row `i` reaches a card iff a row with the same
   * ticker (row `i` itself when tickers are unique) has a truthy daily image.
   */
  lemma LinkReachesCard(stocks: seq<Stock>, images: seq<ImagePair>, i: nat)
    requires |stocks| == |images| && i < |stocks|
    ensures var link, cards := SummaryTable(stocks)[i].link, Cards(stocks, images);
      (exists k :: 0 <= k < |cards| && Anchor(cards[k].id) == link) <==>
      (exists j :: 0 <= j < |stocks| && stocks[j].ticker == stocks[i].ticker && Truthy(images[j].daily))
  {
    var link, cards := SummaryTable(stocks)[i].link, Cards(stocks, images);
    CardForTicker(stocks, images, stocks[i].ticker);
    if k :| 0 <= k < |cards| && Anchor(cards[k].id) == link {
      AnchorInjective(cards[k].id, stocks[i].ticker);
    }
  }

  lemma CardSlotsSnoc(stocks: seq<Stock>, images: seq<ImagePair>, i: nat)
    requires i < |stocks| == |images|
    ensures var c := CardAt(stocks, images, i);
      Present(CardSlots(stocks, images)[..i + 1])
        == Present(CardSlots(stocks, images)[..i]) + (if c.Some? then [c.value] else [])
  {
    var slots := CardSlots(stocks, images);
    assert slots[..i + 1] == slots[..i] + [slots[i]];
    PresentSnoc(slots[..i], slots[i]);
  }

  /** The two loops of `create_html_report`: summary rows, then cards. */
  method CreateHtmlReport(stocks: seq<Stock>, images: seq<ImagePair>)
    returns (table: seq<SummaryRow>, cards: seq<Card>)
    requires |images| == |stocks|
    ensures |table| == |stocks|
    ensures forall i :: 0 <= i < |stocks| ==> table[i].link == Anchor(stocks[i].ticker) && table[i].stock == stocks[i]
    ensures table == SummaryTable(stocks)
    ensures cards == Cards(stocks, images)
  {
    table := [];
    var i := 0;
    while i < |stocks|
      invariant 0 <= i <= |stocks|
      invariant table == SummaryTable(stocks)[..i]
    {
      table := table + [SummaryRow(Anchor(stocks[i].ticker), stocks[i])];
      i := i + 1;
    }
    cards := [];
    i := 0;
    while i < |stocks|
      invariant 0 <= i <= |stocks|
      invariant cards == Present(CardSlots(stocks, images)[..i])
    {
      var img1, img2 := images[i].daily, images[i].intraday;
      if img1.Some? && img1.value != "" {
        cards := cards + [Card(stocks[i].ticker, stocks[i].ticker, stocks[i].company, img1.value, img2)];
      }
      CardSlotsSnoc(stocks, images, i);
      i := i + 1;
    }
    assert CardSlots(stocks, images)[..i] == CardSlots(stocks, images);
  }
}
