/**
 * What the summary, payment and checkout pages compute from the stored
 * cart when they load. The markup and the locale formatting of the
 * numbers are not modelled; the numbers themselves are.
 */
module Pages {
  import opened Cart
  import opened Wrappers
  import opened PromptPay

  /** The summary page: an empty notice with total text "0", or the rows with their total. */
  datatype SummaryView = EmptyCart(totalText: string) | Listing(rows: seq<CartItem>, total: nat)

  /** `initSummary`: the total is accumulated while the rows are rendered. */
  method InitSummary(storage: CartStorage) returns (view: SummaryView)
    ensures storage.LoadCart() == [] ==> view == EmptyCart("0")
    ensures storage.LoadCart() != [] ==> view == Listing(storage.LoadCart(), CartTotal(storage.LoadCart()))
  {
    var cartItems := storage.LoadCart();
    if |cartItems| == 0 {
      return EmptyCart("0");
    }
    var total := 0;
    for i := 0 to |cartItems|
      invariant total + CartTotal(cartItems[i..]) == CartTotal(cartItems)
    {
      assert cartItems[i..][1..] == cartItems[i + 1..];
      total := total + cartItems[i].price;
    }
    view := Listing(cartItems, total);
  }

  /**
   * The separator of a summary row's package line, as the code has it: a
   * bullet, mis-decoded there as three characters, between two spaces.
   */
  const Separator := " \U{201A}\U{00C4}\U{00A2} "

  /**
   * The package line of a summary row: the quantity label alone for the
   * standard package, otherwise followed by the separator and the package.
   */
  function SummaryDetails(item: CartItem): (d: string)
    ensures |d| >= |item.qty| && d[..|item.qty|] == item.qty
    ensures d == item.qty <==> item.pkg == StandardPackage
  {
    if item.pkg == StandardPackage then item.qty else item.qty + Separator + item.pkg
  }

  /** The payment page: the amount shown and the `src` of the QR image. */
  datatype PaymentView = PaymentView(amount: nat, qrSrc: string)

  /**
   * `initPayment`: the amount is the cart total; the image reads back as the
   * demo phone and that amount, and is empty when the total is zero.
   */
  function InitPayment(storage: CartStorage): (view: PaymentView)
    reads storage
    ensures view.amount == CartTotal(storage.LoadCart())
    ensures view.qrSrc == "" <==> view.amount == 0
    ensures view.amount > 0 ==> ReadQR(view.qrSrc) == Some(QrData(DemoPhone, view.amount))
  {
    var total := CartTotal(storage.LoadCart());
    if total > 0 then ReadGenerated(DemoPhone, total); PaymentView(total, GeneratePromptPayQR(DemoPhone, total))
    else PaymentView(total, GeneratePromptPayQR(DemoPhone, total))
  }

  /** The checkout page: leave for the listing page, or show the total. */
  datatype CheckoutView = RedirectToShop | ShowTotal(total: nat)

  /** `initCheckout`: redirects exactly when the cart is empty, and otherwise shows its total. */
  function InitCheckout(storage: CartStorage): (view: CheckoutView)
    reads storage
    ensures view.RedirectToShop? <==> storage.LoadCart() == []
    ensures view.ShowTotal? ==> view.total == CartTotal(storage.LoadCart())
  {
    var cartItems := storage.LoadCart();
    if |cartItems| == 0 then RedirectToShop else ShowTotal(CartTotal(cartItems))
  }
}
