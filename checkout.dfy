/**
 * `submitOrder` of the checkout page: the submit button's state machine
 * (enabled with its own label, then disabled with "Processing...", then
 * settled) and the deletion of the cart when the email service accepts the
 * order. The email service is not called; its answer is an input.
 */
module Checkout {
  import opened Wrappers
  import opened Catalog
  import opened Cart

  /** The service and template identifiers from the build configuration, if set. */
  datatype EmailConfig = EmailConfig(serviceId: Option<string>, templateId: Option<string>)

  const PlaceholderServiceId := "YOUR_SERVICE_ID_HERE"

  /** A JavaScript value that is neither undefined nor the empty string. */
  predicate Present(v: Option<string>) {
    v.Some? && v.value != ""
  }

  /** The guard of `submitOrder`: both identifiers set and the service id not the placeholder. */
  predicate Configured(c: EmailConfig) {
    Present(c.serviceId) && Present(c.templateId) && c.serviceId.value != PlaceholderServiceId
  }

  /** The form fields sent along. */
  datatype Customer = Customer(name: string, email: string, phone: string, address: string)

  /** What is handed to the email service: identifiers, customer, the cart and its total. */
  datatype OrderRequest = OrderRequest(serviceId: string, templateId: string, customer: Customer,
                                       items: seq<CartItem>, total: nat)

  /** How the email service answered: accepted, or rejected with the error's `text` ("" when it has none). */
  datatype SendOutcome = Delivered | Rejected(text: string)

  /**
   * The two button labels, character for character as the code has them: the
   * hourglass and check-mark emoji appear there mis-decoded, each as three
   * other characters.
   */
  const ProcessingLabel := "<span>\U{201A}\U{00E8}\U{2265}</span> Processing..."
  const SentLabel := "<span>\U{201A}\U{00FA}\U{00D6}</span> Sent!"
  const ConfigErrorMessage := "Configuration Error: Please check VITE_EMAILJS Keys in your .env file"
  const InvalidUserMessage := "Configuration Error: Please update EmailJS Keys in code."
  const GenericFailureMessage := "Failed to send order. Please try again."
  const InvalidUserMarker := "The user is invalid"

  /** `sub` occurs in `s` starting at index `i`. */
  predicate OccursAt(s: string, sub: string, i: nat) {
    i + |sub| <= |s| && s[i..i + |sub|] == sub
  }

  /** `sub` occurs somewhere in `s`. */
  predicate Contains(s: string, sub: string) {
    exists i: nat :: i <= |s| && OccursAt(s, sub, i)
  }

  /** The toast for a rejected send: a distinct message when the error says the user is invalid. */
  function FailureMessage(errorText: string): (m: string)
    ensures m == InvalidUserMessage <==> Contains(errorText, InvalidUserMarker)
    ensures m == GenericFailureMessage <==> !Contains(errorText, InvalidUserMarker)
  {
    if Contains(errorText, InvalidUserMarker) then InvalidUserMessage else GenericFailureMessage
  }

  /** The submit button: whether it is disabled and its inner markup. */
  class SubmitButton {
    var disabled: bool
    var innerHtml: string

    constructor(innerHtml: string)
      ensures !disabled && this.innerHtml == innerHtml
    {
      disabled := false;
      this.innerHtml := innerHtml;
    }
  }

  /** Where the synchronous part of `submitOrder` leaves the submission. */
  datatype Dispatch = ConfigurationError(message: string) | Pending(originalText: string, request: OrderRequest)

  /**
   * The synchronous part of `submitOrder`: the button is disabled and shows
   * "Processing..."; a missing or placeholder configuration restores it at
   * once and nothing is sent; otherwise the order built from the stored cart
   * is handed to the email service.
   */
  method SubmitOrder(button: SubmitButton, storage: CartStorage, config: EmailConfig, customer: Customer)
    returns (d: Dispatch)
    modifies button
    ensures !Configured(config) ==>
      d == ConfigurationError(ConfigErrorMessage) && !button.disabled && button.innerHtml == old(button.innerHtml)
    ensures Configured(config) ==>
      d == Pending(old(button.innerHtml), OrderRequest(config.serviceId.value, config.templateId.value, customer,
                                                   storage.LoadCart(), CartTotal(storage.LoadCart()))) &&
      button.disabled && button.innerHtml == ProcessingLabel
  {
    var originalText := button.innerHtml;
    button.disabled := true;
    button.innerHtml := ProcessingLabel;

    var cartItems := storage.LoadCart();
    var total := CartTotal(cartItems);

    if !Present(config.serviceId) || !Present(config.templateId) || config.serviceId.value == PlaceholderServiceId {
      button.disabled := false;
      button.innerHtml := originalText;
      return ConfigurationError(ConfigErrorMessage);
    }
    d := Pending(originalText, OrderRequest(config.serviceId.value, config.templateId.value, customer, cartItems, total));
  }

  /**
   * The `then` and `catch` callbacks of the send: on acceptance the cart is
   * deleted and the button shows "Sent!" and stays as it was (disabled); on
   * rejection the cart is kept and the button is enabled with its original
   * label again.
   */
  method OnSendSettled(button: SubmitButton, storage: CartStorage, d: Dispatch, outcome: SendOutcome)
    returns (toast: Option<string>)
    requires d.Pending?
    modifies button, storage
    ensures outcome.Delivered? ==>
      storage.slot == None && button.innerHtml == SentLabel && button.disabled == old(button.disabled) && toast == None
    ensures outcome.Rejected? ==>
      storage.slot == old(storage.slot) && !button.disabled && button.innerHtml == d.originalText &&
      toast == Some(FailureMessage(outcome.text))
  {
    match outcome
    case Delivered =>
      storage.RemoveItem();
      button.innerHtml := SentLabel;
      toast := None;
    case Rejected(text) =>
      toast := Some(FailureMessage(text));
      button.disabled := false;
      button.innerHtml := d.originalText;
  }

  /**
   * A whole submission from an enabled button: no send on a configuration
   * error, the cart deleted and the button left disabled with "Sent!" on
   * success, and the cart kept and the button restored on failure.
   */
  method SubmitAndSettle(button: SubmitButton, storage: CartStorage, config: EmailConfig, customer: Customer,
                         outcome: SendOutcome)
    returns (toast: Option<string>)
    modifies button, storage
    ensures !Configured(config) ==>
      toast == Some(ConfigErrorMessage) && storage.slot == old(storage.slot) &&
      !button.disabled && button.innerHtml == old(button.innerHtml)
    ensures Configured(config) && outcome.Delivered? ==>
      toast == None && storage.slot == None && button.disabled && button.innerHtml == SentLabel
    ensures Configured(config) && outcome.Rejected? ==>
      toast == Some(FailureMessage(outcome.text)) && storage.slot == old(storage.slot) &&
      !button.disabled && button.innerHtml == old(button.innerHtml)
  {
    var d := SubmitOrder(button, storage, config, customer);
    if d.ConfigurationError? {
      return Some(d.message);
    }
    toast := OnSendSettled(button, storage, d, outcome);
  }

  /**
   * The Qty column of the emailed order table: the quantity label alone for
   * the standard package, otherwise followed by the package in parentheses.
   */
  function ItemDetails(item: CartItem): (d: string)
    ensures |d| >= |item.qty| && d[..|item.qty|] == item.qty
    ensures d == item.qty <==> item.pkg == StandardPackage
  {
    if item.pkg == StandardPackage then item.qty else item.qty + " (" + item.pkg + ")"
  }

  /** A cart stored by `addToCart` is emailed with the bare quantity labels. */
  lemma SnapshotDetails(ps: seq<Product>, t: Table)
    requires IndicesValid(ps, t)
    ensures forall item :: item in CartSnapshot(ps, t) ==> ItemDetails(item) == item.qty
  {
    SnapshotStandard(ps, t, SelectedIds(t));
  }
}
