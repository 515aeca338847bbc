/**
 * The admin's newsletter composer (src/components/NewsletterComposer.tsx):
 * drafts kept newest first in `localStorage` (at most ten of them), and
 * sending, which posts the subject, the content and one recipient per active
 * subscriber, each with an unsubscribe link carrying a fresh token pasted
 * into the path as it is (a link with the token percent-encoded is modelled
 * beside it as the corrected form). The
 * request itself, the clock, the page origin and the secret are parameters;
 * how the request ends is the `Response` parameter.
 */
module NewsletterComposer {
  import opened Wrappers
  import opened Text
  import Uri
  import Json
  import Jwt
  import UnsubscribePage
  import opened Subscribers
  import opened Toasts
  import Lists

  /** How many drafts `localStorage` keeps. */
  const MaxStoredDrafts: nat := 10
  const Untitled: string := "Untitled Newsletter"
  const UnsubscribePath: string := "/unsubscribe/"

  datatype Draft = Draft(id: nat, subject: string, content: string, savedAt: string)

  datatype Recipient = Recipient(email: string, name: string, unsubscribeUrl: string)

  /** The body posted to the newsletter endpoint. */
  datatype Request = Request(subject: string, content: string, recipients: seq<Recipient>)

  /** How the request ended: delivered, answered with a non-OK status, or thrown. */
  datatype Response = Delivered | HttpError(status: nat, body: string) | Thrown(message: string)

  predicate IsActive(s: Subscriber) {
    s.active
  }

  /** `subscribers.filter(sub => sub.active)`. */
  function ActiveSubscribers(subscribers: seq<Subscriber>): seq<Subscriber> {
    Lists.Filter(IsActive, subscribers)
  }

  // ---------------------------------------------------------------------
  // Drafts

  /** The draft `saveDraft` builds; an empty subject is stored under a placeholder title. */
  function DraftOf(subject: string, content: string, nowMs: nat, savedAt: string): (d: Draft)
    ensures d.subject != []
    ensures subject != [] ==> d.subject == subject
    ensures d.content == content && d.id == nowMs
  {
    Draft(nowMs, if subject == [] then Untitled else subject, content, savedAt)
  }

  /** `drafts.slice(0, 10)`. */
  function Newest(drafts: seq<Draft>): (r: seq<Draft>)
    ensures |r| <= MaxStoredDrafts && r <= drafts
    ensures |r| == MaxStoredDrafts || r == drafts
  {
    if |drafts| <= MaxStoredDrafts then drafts else drafts[..MaxStoredDrafts]
  }

  /** The `newsletter_drafts` entry of `localStorage`, parsed; an absent entry reads as the empty list. */
  class DraftStore {
    var drafts: seq<Draft>

    constructor (initial: seq<Draft>)
      ensures drafts == initial
    {
      drafts := initial;
    }
  }

  // ---------------------------------------------------------------------
  // Unsubscribe links

  /** The link as the component writes it: the token pasted into the path as it is. */
  function RawUnsubscribeUrl(origin: string, token: string): string {
    origin + UnsubscribePath + token
  }

  /** The link with the token percent-encoded, so that it stays one path segment. */
  function UnsubscribeUrl(origin: string, token: string): string {
    origin + UnsubscribePath + Uri.EncodeURIComponent(token)
  }

  /**
   * One subscriber's recipient entry, with the link as the component writes
   * it; `None` when no token can be made for it (`btoa` throws).
   */
  function RecipientFor(s: Subscriber, origin: string, nowMs: nat, secret: string): Option<Recipient> {
    match Jwt.CreateUnsubscribeToken(s.id, s.email, nowMs, secret)
    case None => None
    case Some(token) => Some(Recipient(s.email, s.name, RawUnsubscribeUrl(origin, token)))
  }

  /** The corrected entry: the same subscriber and token, with the token percent-encoded in the link. */
  function RecipientForFixed(s: Subscriber, origin: string, nowMs: nat, secret: string): (r: Option<Recipient>)
    ensures r.Some? <==> RecipientFor(s, origin, nowMs, secret).Some?
    ensures r.Some? ==>
              var token := Jwt.CreateUnsubscribeToken(s.id, s.email, nowMs, secret).value;
              r.value.email == s.email && r.value.name == s.name &&
              r.value.unsubscribeUrl == origin + UnsubscribePath + Uri.EncodeURIComponent(token)
  {
    match Jwt.CreateUnsubscribeToken(s.id, s.email, nowMs, secret)
    case None => None
    case Some(token) => Some(Recipient(s.email, s.name, UnsubscribeUrl(origin, token)))
  }

  /**
   * The recipients of a send, in order; `None` as soon as one token cannot be
   * made (the exception leaves the `try`).
   */
  function Recipients(active: seq<Subscriber>, origin: string, nowMs: nat, secret: string): Option<seq<Recipient>> {
    Lists.MapAll((s: Subscriber) => RecipientFor(s, origin, nowMs, secret), active)
  }

  // ---------------------------------------------------------------------
  // Sending

  /** Sending is attempted only with a subject, content and at least one active subscriber. */
  predicate Ready(subject: string, content: string, subscribers: seq<Subscriber>) {
    !IsBlank(subject) && !IsBlank(content) && |ActiveSubscribers(subscribers)| > 0
  }

  function Failure(message: string): Toast {
    Toast(Error, "Failed to send newsletter: " + message)
  }

  /**
   * The request made, if any, and the toast shown. `tokenError` is the message
   * of the exception `btoa` throws on a character above U+00FF.
   */
  function SendResult(subject: string, content: string, subscribers: seq<Subscriber>, origin: string, nowMs: nat,
                      secret: string, tokenError: string, response: Response): (Option<Request>, Toast)
  {
    var active := ActiveSubscribers(subscribers);
    if IsBlank(subject) || IsBlank(content) then (None, Toast(Error, "Please fill in subject and content"))
    else if |active| == 0 then (None, Toast(Error, "No active subscribers to send to"))
    else match Recipients(active, origin, nowMs, secret)
      case None => (None, Failure(tokenError))
      case Some(rs) =>
        var request := Some(Request(subject, content, rs));
        match response
        case Delivered => (request, Toast(Success, "Newsletter sent to " + Decimal(|active|) + " subscribers"))
        case HttpError(status, body) => (request, Failure("HTTP " + Decimal(status) + ": " + body))
        case Thrown(message) => (request, Failure(message))
  }

  class Composer {
    var subject: string
    var content: string
    var previewMode: bool
    var sending: bool
    var savedDrafts: seq<Draft>
    var toasts: seq<Toast>

    constructor ()
      ensures subject == "" && content == "" && !previewMode && !sending && savedDrafts == [] && toasts == []
    {
      subject := "";
      content := "";
      previewMode := false;
      sending := false;
      savedDrafts := [];
      toasts := [];
    }

    /** The mount effect: the list shown is the stored list. */
    method Mount(store: DraftStore)
      modifies this
      ensures savedDrafts == store.drafts
      ensures subject == old(subject) && content == old(content) && previewMode == old(previewMode) &&
              sending == old(sending) && toasts == old(toasts)
    {
      savedDrafts := store.drafts;
    }

    /**
     * `saveDraft`: puts the new draft in front of the stored drafts, stores the
     * ten newest, and shows the whole list, which can hold one more.
     */
    method SaveDraft(nowMs: nat, savedAt: string, store: DraftStore)
      modifies this, store
      ensures subject == old(subject) && content == old(content) && previewMode == old(previewMode) && sending == old(sending)
      ensures IsBlank(subject) && IsBlank(content) ==>
                toasts == old(toasts) + [Toast(Error, "Nothing to save")] &&
                store.drafts == old(store.drafts) && savedDrafts == old(savedDrafts)
      ensures !(IsBlank(subject) && IsBlank(content)) ==>
                var all := [DraftOf(subject, content, nowMs, savedAt)] + old(store.drafts);
                savedDrafts == all && store.drafts == Newest(all) && toasts == old(toasts) + [Toast(Success, "Draft saved")]
    {
      if IsBlank(subject) && IsBlank(content) {
        toasts := toasts + [Toast(Error, "Nothing to save")];
        return;
      }
      var drafts := [DraftOf(subject, content, nowMs, savedAt)] + store.drafts;
      store.drafts := Newest(drafts);
      savedDrafts := drafts;
      toasts := toasts + [Toast(Success, "Draft saved")];
    }

    /** `loadDraft`: the draft's subject and content replace the form's. */
    method LoadDraft(d: Draft)
      modifies this
      ensures subject == d.subject && content == d.content
      ensures toasts == old(toasts) + [Toast(Success, "Draft loaded")]
      ensures previewMode == old(previewMode) && sending == old(sending) && savedDrafts == old(savedDrafts)
    {
      subject := d.subject;
      content := d.content;
      toasts := toasts + [Toast(Success, "Draft loaded")];
    }

    /** The Preview / Edit button. */
    method TogglePreview()
      modifies this
      ensures previewMode == !old(previewMode)
      ensures subject == old(subject) && content == old(content) && sending == old(sending) &&
              savedDrafts == old(savedDrafts) && toasts == old(toasts)
    {
      previewMode := !previewMode;
    }

    /** `sendNewsletter`; returns the request it made. */
    method SendNewsletter(subscribers: seq<Subscriber>, origin: string, nowMs: nat, secret: string, tokenError: string, response: Response)
      returns (request: Option<Request>)
      modifies this
      ensures request == SendResult(old(subject), old(content), subscribers, origin, nowMs, secret, tokenError, response).0
      ensures toasts == old(toasts) + [SendResult(old(subject), old(content), subscribers, origin, nowMs, secret, tokenError, response).1]
      ensures savedDrafts == old(savedDrafts)
      ensures sending == (old(sending) && !Ready(old(subject), old(content), subscribers))
      ensures if SendResult(old(subject), old(content), subscribers, origin, nowMs, secret, tokenError, response).1.kind == Success
              then subject == "" && content == "" && !previewMode
              else subject == old(subject) && content == old(content) && previewMode == old(previewMode)
    {
      var outcome := SendResult(subject, content, subscribers, origin, nowMs, secret, tokenError, response);
      request := outcome.0;
      Settle(outcome.1, Ready(subject, content, subscribers));
    }

    /**
     * The end of a send once its toast is known: the toast is shown, a
     * success clears the form and leaves the preview, and a send that got
     * past the checks turns `sending` on and, in `finally`, off again.
     */
    method Settle(toast: Toast, attempted: bool)
      modifies this
      ensures toasts == old(toasts) + [toast]
      ensures savedDrafts == old(savedDrafts)
      ensures sending == (old(sending) && !attempted)
      ensures if toast.kind == Success
              then subject == "" && content == "" && !previewMode
              else subject == old(subject) && content == old(content) && previewMode == old(previewMode)
    {
      if attempted {
        sending := true;
      }
      toasts := toasts + [toast];
      if toast.kind == Success {
        subject := "";
        content := "";
        previewMode := false;
      }
      if attempted {
        sending := false;
      }
    }
  }

  // ---------------------------------------------------------------------
  // Properties

  /** The active subscribers are an order-preserving sublist holding every active subscriber and nothing else. */
  lemma ActiveSubscribersSpec(subscribers: seq<Subscriber>)
    ensures Lists.IsSublist(ActiveSubscribers(subscribers), subscribers)
    ensures forall s | s in ActiveSubscribers(subscribers) :: s.active && s in subscribers
    ensures forall s | s in subscribers && s.active :: s in ActiveSubscribers(subscribers)
  {
    Lists.FilterSpec(IsActive, subscribers);
  }

  /**
   * A subscriber's entry exists exactly when a token can be made for it, and
   * then it carries the subscriber's email and name and a link ending in that
   * token, unencoded, right after `/unsubscribe/`.
   */
  lemma RecipientForSpec(s: Subscriber, origin: string, nowMs: nat, secret: string)
    ensures RecipientFor(s, origin, nowMs, secret).Some? <==> Jwt.CreateUnsubscribeToken(s.id, s.email, nowMs, secret).Some?
    ensures RecipientFor(s, origin, nowMs, secret).Some? ==>
              var r := RecipientFor(s, origin, nowMs, secret).value;
              var token := Jwt.CreateUnsubscribeToken(s.id, s.email, nowMs, secret).value;
              r.email == s.email && r.name == s.name &&
              |origin + UnsubscribePath| <= |r.unsubscribeUrl| &&
              r.unsubscribeUrl[..|origin + UnsubscribePath|] == origin + UnsubscribePath &&
              r.unsubscribeUrl[|origin + UnsubscribePath|..] == token
  {
  }

  /**
   * Recipients can be listed exactly when every active subscriber has an
   * entry; the list then follows the subscribers one for one, in order.
   */
  lemma RecipientsSpec(active: seq<Subscriber>, origin: string, nowMs: nat, secret: string)
    ensures Recipients(active, origin, nowMs, secret).Some? <==>
              forall i | 0 <= i < |active| :: RecipientFor(active[i], origin, nowMs, secret).Some?
    ensures Recipients(active, origin, nowMs, secret).Some? ==>
              var rs := Recipients(active, origin, nowMs, secret).value;
              |rs| == |active| &&
              forall i | 0 <= i < |active| :: Some(rs[i]) == RecipientFor(active[i], origin, nowMs, secret)
  {
    Lists.MapAllSpec((s: Subscriber) => RecipientFor(s, origin, nowMs, secret), active);
  }

  /**
   * A request goes out only when the form is ready, and then it carries the
   * form's subject and content and one recipient per active subscriber.
   */
  lemma RequestOnlyWhenReady(subject: string, content: string, subscribers: seq<Subscriber>, origin: string, nowMs: nat,
                             secret: string, tokenError: string, response: Response)
    ensures var request := SendResult(subject, content, subscribers, origin, nowMs, secret, tokenError, response).0;
            request.Some? ==>
              Ready(subject, content, subscribers) && request.value.subject == subject && request.value.content == content &&
              |request.value.recipients| == |ActiveSubscribers(subscribers)|
  {
    RecipientsSpec(ActiveSubscribers(subscribers), origin, nowMs, secret);
  }

  /**
   * The success toast appears exactly when a request was made and delivered,
   * and it counts the recipients.
   */
  lemma SuccessOnlyWhenDelivered(subject: string, content: string, subscribers: seq<Subscriber>, origin: string, nowMs: nat,
                                 secret: string, tokenError: string, response: Response)
    ensures var (request, toast) := SendResult(subject, content, subscribers, origin, nowMs, secret, tokenError, response);
            (toast.kind == Success <==> request.Some? && response == Delivered) &&
            (toast.kind == Success ==> toast.message == "Newsletter sent to " + Decimal(|request.value.recipients|) + " subscribers")
  {
    RequestOnlyWhenReady(subject, content, subscribers, origin, nowMs, secret, tokenError, response);
  }

  /** With ASCII-safe ids, emails and secret, a ready form always produces a request. */
  lemma ReadyFormSends(subject: string, content: string, subscribers: seq<Subscriber>, origin: string, nowMs: nat,
                       secret: string, tokenError: string, response: Response)
    requires Ready(subject, content, subscribers) && IsLatin1(secret)
    requires forall i | 0 <= i < |subscribers| :: IsLatin1(subscribers[i].id) && IsLatin1(subscribers[i].email)
    ensures SendResult(subject, content, subscribers, origin, nowMs, secret, tokenError, response).0.Some?
  {
    var active := ActiveSubscribers(subscribers);
    ActiveSubscribersSpec(subscribers);
    forall i | 0 <= i < |active|
      ensures RecipientFor(active[i], origin, nowMs, secret).Some?
    {
      assert active[i] in subscribers;
      Jwt.CreateDefined(active[i].id, active[i].email, nowMs, secret);
      RecipientForSpec(active[i], origin, nowMs, secret);
    }
    RecipientsSpec(active, origin, nowMs, secret);
  }

  /**
   * The stored list never exceeds ten drafts and is a prefix of the list shown;
   * when the store held at most ten before, the shown list has at most one more.
   */
  lemma StoredBehindShown(stored: seq<Draft>, d: Draft)
    requires |stored| <= MaxStoredDrafts
    ensures var all := [d] + stored;
            |Newest(all)| <= MaxStoredDrafts && Newest(all) <= all && all[0] == d &&
            (Newest(all) == all || all == Newest(all) + [stored[|stored| - 1]])
  {
    var all := [d] + stored;
    if |all| > MaxStoredDrafts {
      assert all == all[..MaxStoredDrafts] + [all[MaxStoredDrafts]];
    }
  }

  /** Saving twice keeps both drafts, newest first, ahead of the older ones. */
  lemma SaveTwiceOrder(stored: seq<Draft>, d1: Draft, d2: Draft)
    ensures var once := [d1] + stored;
            var twice := [d2] + Newest(once);
            twice[0] == d2 && twice[1] == d1 && |Newest(twice)| <= MaxStoredDrafts
  {
  }

  // ---------------------------------------------------------------------
  // The unsubscribe link

  /**
   * As written, a link's token can span two path segments: for every
   * subscriber some secret of at most three characters makes the token hold a
   * `/`, so the text after `/unsubscribe/` is no longer one segment.
   */
  lemma RawLinkSplitsPath(id: string, email: string, nowMs: nat, origin: string) returns (secret: string)
    requires IsLatin1(id) && IsLatin1(email)
    ensures IsLatin1(secret) && Jwt.CreateUnsubscribeToken(id, email, nowMs, secret).Some?
    ensures var url := RawUnsubscribeUrl(origin, Jwt.CreateUnsubscribeToken(id, email, nowMs, secret).value);
            |origin + UnsubscribePath| <= |url| && |Split(url[|origin + UnsubscribePath|..], '/')| >= 2
  {
    secret := Jwt.SlashInToken(id, email, nowMs);
    var token := Jwt.CreateUnsubscribeToken(id, email, nowMs, secret).value;
    var url := RawUnsubscribeUrl(origin, token);
    assert url[|origin + UnsubscribePath|..] == token;
    CountMember(token, '/');
    SplitJoin(token, '/');
  }

  /**
   * With the token percent-encoded, the text after `/unsubscribe/` is one path
   * segment, and decoding it, as the unsubscribe page does, gives the token back.
   */
  lemma EncodedLinkOneSegment(origin: string, token: string)
    ensures var url := UnsubscribeUrl(origin, token);
            var rest := url[|origin + UnsubscribePath|..];
            |origin + UnsubscribePath| <= |url| && url == origin + UnsubscribePath + rest &&
            Split(rest, '/') == [rest] && Uri.DecodeURIComponent(rest) == Some(token)
  {
    var rest := Uri.EncodeURIComponent(token);
    assert UnsubscribeUrl(origin, token)[|origin + UnsubscribePath|..] == rest;
    Uri.EncodeIsEncoded(token);
    assert '/' !in rest;
    SplitNoSep(rest, '/', []);
    Uri.DecodeEncode(token);
  }

  /**
   * End to end, for the link as sent: when the token holds no `/`, the text
   * after `/unsubscribe/` in a recipient's link is one path segment, the
   * token itself, and the unsubscribe page accepts it within thirty days as
   * naming that subscriber. (The other case is `RawLinkSplitsPath`.)
   */
  lemma RecipientLinkAccepted(s: Subscriber, origin: string, nowMs: nat, secret: string, laterMs: nat)
    requires IsLatin1(s.id) && IsLatin1(s.email) && IsLatin1(secret) && s.email != []
    requires Jwt.Seconds(laterMs) <= Jwt.Seconds(nowMs) + Jwt.Lifetime
    ensures RecipientFor(s, origin, nowMs, secret).Some?
    ensures var url := RecipientFor(s, origin, nowMs, secret).value.unsubscribeUrl;
            var rest := url[|origin + UnsubscribePath|..];
            '/' !in rest ==>
              Split(rest, '/') == [rest] &&
              UnsubscribePage.Accepted(Some(rest), laterMs, secret) == Some(Jwt.Claims(Json.Str(s.id), Json.Str(s.email)))
  {
    UnsubscribePage.CreatedLinkAccepted(s.id, s.email, nowMs, secret, laterMs);
    RecipientForSpec(s, origin, nowMs, secret);
    var rest := RecipientFor(s, origin, nowMs, secret).value.unsubscribeUrl[|origin + UnsubscribePath|..];
    if '/' !in rest {
      SplitNoSep(rest, '/', []);
    }
  }

  /**
   * End to end, for the corrected link: for every token the text after
   * `/unsubscribe/` is one path segment, and the unsubscribe page accepts it
   * within thirty days as naming that subscriber.
   */
  lemma RecipientLinkAcceptedFixed(s: Subscriber, origin: string, nowMs: nat, secret: string, laterMs: nat)
    requires IsLatin1(s.id) && IsLatin1(s.email) && IsLatin1(secret) && s.email != []
    requires Jwt.Seconds(laterMs) <= Jwt.Seconds(nowMs) + Jwt.Lifetime
    ensures RecipientForFixed(s, origin, nowMs, secret).Some?
    ensures var url := RecipientForFixed(s, origin, nowMs, secret).value.unsubscribeUrl;
            |origin + UnsubscribePath| <= |url| &&
            var rest := url[|origin + UnsubscribePath|..];
            Split(rest, '/') == [rest] &&
            UnsubscribePage.Accepted(Some(rest), laterMs, secret) == Some(Jwt.Claims(Json.Str(s.id), Json.Str(s.email)))
  {
    Jwt.CreateThenVerify(s.id, s.email, nowMs, secret, laterMs);
    var token := Jwt.CreateUnsubscribeToken(s.id, s.email, nowMs, secret).value;
    EncodedLinkOneSegment(origin, token);
    var rest := Uri.EncodeURIComponent(token);
    assert rest != [] by {
      Jwt.TokenNonEmpty(s.id, s.email, nowMs, secret);
      assert Uri.DecodeURIComponent([]) == Some([]);
    }
    UnsubscribePage.AcceptedDecoded(rest, token, laterMs, secret, Jwt.Claims(Json.Str(s.id), Json.Str(s.email)));
  }
}
