/** The kiosk's screen-flow controller: the current screen, the selected
    language and the current order, changed only by the six handlers. Each
    handler is reachable only from the one screen that renders the control
    wired to it, which each method states as its precondition. */
module Kiosk {
  import opened Types
  import opened Transcript
  import opened OrderSubmit

  /** What every order the kiosk holds looks like. */
  predicate PlacedOrder(o: Order, language: Language) {
    && o.language == language
    && o.status == Pending
    && MinTotal <= o.total <= MaxTotal
    && forall k :: 0 <= k < |o.items| ==> IsItem(o.items[k])
  }

  class App {
    var view: View
    var language: Language
    var order: Option<Order>
    /** Whether a language has been picked yet. */
    ghost var languageChosen: bool

    /** The reachability invariant: an order is held exactly on the
        confirmation, tracking and ready screens; the language screen is
        shown only until a language is picked, and English stays selected
        until then; a held order is in the selected language, still
        pending, with a total from 5 to 24 and well-formed items. */
    ghost predicate Valid()
      reads this
    {
      && (order.Some? <==> view in {ConfirmationScreen, TrackingScreen, ReadyScreen})
      && (view == LanguageScreen <==> !languageChosen)
      && (!languageChosen ==> language == En)
      && (order.Some? ==> PlacedOrder(order.value, language))
    }

    /** The controller at start-up: language screen, English, no order. */
    constructor ()
      ensures Valid()
      ensures view == LanguageScreen && language == En && order == None
    {
      view := LanguageScreen;
      language := En;
      order := None;
      languageChosen := false;
    }

    /** A language button on the language screen. */
    method SelectLanguage(lang: Language)
      requires Valid() && view == LanguageScreen
      modifies this
      ensures Valid()
      ensures language == lang && view == HomeScreen && order == old(order)
    {
      language := lang;
      view := HomeScreen;
      languageChosen := true;
    }

    /** The start button on the home screen. */
    method StartOrder()
      requires Valid() && view == HomeScreen
      modifies this
      ensures Valid()
      ensures view == OrderScreen && language == old(language) && order == old(order)
    {
      view := OrderScreen;
    }

    /** The order page hands over the order it built. */
    method CompleteOrder(o: Order)
      requires Valid() && view == OrderScreen
      requires PlacedOrder(o, language)
      modifies this
      ensures Valid()
      ensures order == Some(o) && view == ConfirmationScreen && language == old(language)
    {
      order := Some(o);
      view := ConfirmationScreen;
    }

    /** The order page's submit button: a blank transcript changes nothing;
        any other one places the order built from it. `id` and `roll`
        stand for the random identifier and the random part of the total. */
    method SubmitOrder(transcript: string, id: string, roll: nat)
      requires Valid() && view == OrderScreen
      requires roll < 20
      modifies this
      ensures Valid()
      ensures language == old(language)
      ensures AllWhitespace(transcript) ==> view == old(view) && order == old(order)
      ensures !AllWhitespace(transcript) ==>
        && view == ConfirmationScreen
        && order == BuildOrder(transcript, language, id, roll)
        && order.value.items == ParseItems(transcript)
    {
      var built := BuildOrder(transcript, language, id, roll);
      ParseItemsWellFormed(transcript);
      if built.Some? {
        CompleteOrder(built.value);
      }
    }

    /** The track button on the confirmation screen. */
    method TrackOrder()
      requires Valid() && view == ConfirmationScreen
      modifies this
      ensures Valid()
      ensures view == TrackingScreen && language == old(language) && order == old(order)
    {
      view := TrackingScreen;
    }

    /** The tracking screen's timer after the status reached ready. */
    method OrderReady()
      requires Valid() && view == TrackingScreen
      modifies this
      ensures Valid()
      ensures view == ReadyScreen && language == old(language) && order == old(order)
    {
      view := ReadyScreen;
    }

    /** The new-order button on the ready screen. */
    method NewOrder()
      requires Valid() && view == ReadyScreen
      modifies this
      ensures Valid()
      ensures view == HomeScreen && language == old(language) && order == None
    {
      order := None;
      view := HomeScreen;
    }

    /** The order the confirmation or tracking screen shows: one always
        exists there. */
    function ShownOrder(): (o: Order)
      reads this
      requires Valid() && view in {ConfirmationScreen, TrackingScreen}
      ensures Some(o) == order && o.language == language && o.status == Pending
    {
      order.value
    }
  }

  /** One customer's visit: pick `lang`, start, speak `transcript`, and, if
      an order was placed, track it to pickup and start over. Returns the
      screens passed through and the order placed, if any. */
  method Visit(lang: Language, transcript: string, id: string, roll: nat)
    returns (views: seq<View>, placed: Option<Order>)
    requires roll < 20
    ensures placed == BuildOrder(transcript, lang, id, roll)
    ensures AllWhitespace(transcript) ==> views == [LanguageScreen, HomeScreen, OrderScreen, OrderScreen]
    ensures !AllWhitespace(transcript) ==>
      views == [LanguageScreen, HomeScreen, OrderScreen, ConfirmationScreen, TrackingScreen, ReadyScreen, HomeScreen]
  {
    var app := new App();
    views := [app.view];
    app.SelectLanguage(lang);
    views := views + [app.view];
    app.StartOrder();
    views := views + [app.view];
    ghost var built := BuildOrder(transcript, lang, id, roll);
    assert built.None? <==> AllWhitespace(transcript);
    app.SubmitOrder(transcript, id, roll);
    views := views + [app.view];
    placed := app.order;
    assert placed == built;
    if app.view == ConfirmationScreen {
      app.TrackOrder();
      views := views + [app.view];
      app.OrderReady();
      views := views + [app.view];
      app.NewOrder();
      views := views + [app.view];
    }
  }
}
