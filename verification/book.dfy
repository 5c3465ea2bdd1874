/** The order book as the exchange returns it: bids best-first (descending
    price) and asks best-first (ascending price). */
module Book {

  datatype Level = Level(price: real, size: real)

  datatype OrderBook = OrderBook(bids: seq<Level>, asks: seq<Level>)

  /** Mid-market price: the best bid moved half way towards the best ask.
      It is the plain average of the two quotes, equidistant from both, and
      inside the spread whenever the book is not crossed. */
  function MidPrice(book: OrderBook): (m: real)
    requires |book.bids| > 0 && |book.asks| > 0
    ensures m == (book.bids[0].price + book.asks[0].price) / 2.0
    ensures m - book.bids[0].price == book.asks[0].price - m
    ensures book.bids[0].price <= book.asks[0].price ==>
              book.bids[0].price <= m <= book.asks[0].price
  {
    var bid := book.bids[0].price;
    var ask := book.asks[0].price;
    bid + (ask - bid) * 0.5
  }
}
