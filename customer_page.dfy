/**
 * `handleContact` in `app/customer/page.tsx`: the URL a customer is sent to when
 * contacting a vendor about a product. The page opens that URL in a new window; here
 * it is the result. `encodeURIComponent` is foreign code and enters as a parameter.
 */
module CustomerPage {
  import opened Wrappers
  import opened Text
  import opened Store

  datatype Platform = WhatsApp | Instagram

  const WaMe: string := "wa.me/"
  const SendForm: string := "api.whatsapp.com/send?phone="
  const PhoneKey: string := "phone="
  const WaMeBase: string := "https://wa.me/"
  const SendBase: string := "https://api.whatsapp.com/send?phone="
  const InstagramBase: string := "https://instagram.com/"

  predicate AllDigits(s: string) {
    forall k :: 0 <= k < |s| ==> IsDigit(s[k])
  }

  /** The `api.whatsapp.com/send?phone=` marker holds `phone=`, so the split on it has a second piece. */
  lemma SendFormHasPhoneKey(link: string)
    requires Includes(link, SendForm)
    ensures Includes(link, PhoneKey)
  {
    var i := IndexOf(link, SendForm).value;
    assert OccursAt(link, SendForm, i);
    forall j | 0 <= j < |PhoneKey| ensures link[i + 22 + j] == PhoneKey[j] {
      assert SendForm[22 + j] == PhoneKey[j];
    }
    assert OccursAt(link, PhoneKey, i + 22);
  }

  /**
   * The phone number of a WhatsApp link: the digits after the first `wa.me/` up to a
   * `?`; failing that, when the link holds `api.whatsapp.com/send?phone=`, the digits
   * after the first `phone=` up to a `&`; failing that, all digits of the link.
   */
  function PhoneNumber(link: string): (phone: string)
    ensures AllDigits(phone)
    ensures |phone| <= |link|
    ensures Includes(link, WaMe) ==> phone == Digits(FirstPiece(SecondPiece(link, WaMe), "?"))
    ensures !Includes(link, WaMe) && Includes(link, SendForm) ==>
      Includes(link, PhoneKey) && phone == Digits(FirstPiece(SecondPiece(link, PhoneKey), "&"))
    ensures !Includes(link, WaMe) && !Includes(link, SendForm) ==> phone == Digits(link)
  {
    if Includes(link, WaMe) then
      Digits(FirstPiece(SecondPiece(link, WaMe), "?"))
    else if Includes(link, SendForm) then
      SendFormHasPhoneKey(link);
      Digits(FirstPiece(SecondPiece(link, PhoneKey), "&"))
    else
      Digits(link)
  }

  /**
   * After a number, a query part that starts with `mark` (or nothing at all): the text
   * before the next `pat`, cut again at `mark`, is exactly the number, as long as the
   * number holds neither `mark` nor the first character of `pat`.
   */
  lemma NumberBeforeMark(d: string, q: string, pat: string, mark: char)
    requires |pat| > 0 && pat[0] != mark && pat[0] !in d && mark !in d
    requires q == [] || q[0] == mark
    ensures FirstPiece(FirstPiece(d + q, pat), [mark]) == d
  {
    var tail := d + q;
    forall k | 0 <= k <= |d| ensures !OccursAt(tail, pat, k) {
      if k < |d| {
        assert tail[k] == d[k] && d[k] in d;
      } else if k < |tail| {
        assert tail[k] == mark;
      }
    }
    var t := FirstPiece(tail, pat);
    assert |d| <= |t| && t[..|d|] == d && (|t| == |d| || t[|d|] == mark) by {
      match IndexOf(tail, pat)
      case None =>
      case Some(j) =>
        assert OccursAt(tail, pat, j);
    }
    forall k | 0 <= k < |d| ensures !OccursAt(t, [mark], k) {
      assert t[k] == d[k] && d[k] in d && [mark][0] == mark;
    }
    FirstPieceUpTo(t, [mark], |d|);
  }

  /**
   * A `https://wa.me/<number>` link, with or without a `?` query, yields the digits of
   * its number, whatever separators (`+`, spaces, dashes) the number is written with;
   * a number of digits only is yielded exactly.
   */
  lemma WaMeLinkPhone(d: string, q: string)
    requires 'w' !in d && '?' !in d
    requires q == [] || q[0] == '?'
    ensures PhoneNumber(WaMeBase + d + q) == Digits(d)
    ensures AllDigits(d) ==> PhoneNumber(WaMeBase + d + q) == d
  {
    var link := WaMeBase + d + q;
    var tail := d + q;
    assert link[..8] == "https://" && link[8..14] == WaMe && link[14..] == tail;
    assert OccursAt(link, WaMe, 8);
    forall k | 0 <= k < 8 ensures !OccursAt(link, WaMe, k) {
      assert link[k] == WaMeBase[k] && link[k] != 'w' && WaMe[0] == 'w';
    }
    IndexOfAt(link, WaMe, 8);
    NumberBeforeMark(d, q, WaMe, '?');
    if AllDigits(d) {
      DigitsOfDigits(d);
    }
  }

  /** Past a prefix, occurrences in a concatenation are the occurrences in its second part. */
  lemma OccursPast(a: string, b: string, pat: string, k: nat)
    requires k >= |a|
    ensures OccursAt(a + b, pat, k) <==> OccursAt(b, pat, k - |a|)
  {
    if OccursAt(b, pat, k - |a|) {
      forall j | 0 <= j < |pat| ensures (a + b)[k + j] == pat[j] {
        assert (a + b)[k + j] == b[k - |a| + j];
      }
    }
  }

  /** No `wa.me/` in a send-form link whose number has no `w` and whose parameters hold none. */
  lemma SendLinkHasNoWaMe(d: string, q: string)
    requires 'w' !in d
    requires !Includes(q, WaMe)
    ensures !Includes(SendBase + d + q, WaMe)
  {
    var link := SendBase + d + q;
    assert link == (SendBase + d) + q;
    SendBaseHasNoWaMe(link);
    forall k | 36 <= k <= |link| ensures !OccursAt(link, WaMe, k) {
      if k < 36 + |d| {
        assert link[k] == d[k - 36] && d[k - 36] in d;
        MismatchAt(link, WaMe, k, 0);
      } else {
        OccursPast(SendBase + d, q, WaMe, k);
      }
    }
  }

  /** No `wa.me/` starts inside the send-form prefix of a link. */
  lemma SendBaseHasNoWaMe(link: string)
    requires |SendBase| <= |link| && link[..|SendBase|] == SendBase
    ensures forall k :: 0 <= k < |SendBase| ==> !OccursAt(link, WaMe, k)
  {
    forall k | 0 <= k < |SendBase| ensures !OccursAt(link, WaMe, k) {
      assert link[k] == SendBase[k];
      if SendBase[k] == 'w' {
        assert k == 12 && link[13] == SendBase[13];
        MismatchAt(link, WaMe, k, 1);
      } else {
        MismatchAt(link, WaMe, k, 0);
      }
    }
  }

  /** Where the send-form prefix holds the marker and its first `phone=`. */
  lemma SendBaseOccurrences()
    ensures OccursAt(SendBase, SendForm, 8) && OccursAt(SendBase, PhoneKey, 30)
    ensures forall k :: 0 <= k < 30 ==> !OccursAt(SendBase, PhoneKey, k)
  {
    forall j | 0 <= j < |SendForm| ensures SendBase[8 + j] == SendForm[j] {
    }
    forall k | 0 <= k < 30 ensures !OccursAt(SendBase, PhoneKey, k) {
      assert SendBase[k + 5] != '=' by {
        NoEqualsBeforeNumber();
      }
      MismatchAt(SendBase, PhoneKey, k, 5);
    }
  }

  /** The only `=` of the send-form prefix is its last character. */
  lemma NoEqualsBeforeNumber()
    ensures forall j :: 0 <= j < 35 ==> SendBase[j] != '='
  {
  }

  /** Text appended after a window does not change what occurs inside it. */
  lemma OccursPrefix(p: string, r: string, pat: string, i: nat)
    requires i + |pat| <= |p|
    ensures OccursAt(p + r, pat, i) <==> OccursAt(p, pat, i)
  {
    forall k | i <= k < i + |pat| ensures (p + r)[k] == p[k] {
    }
  }

  /** The first `phone=` of a send-form link is the one in the marker, right before the number. */
  lemma SendLinkPhoneKey(d: string, q: string)
    ensures var link := SendBase + d + q;
      Includes(link, SendForm) && IndexOf(link, PhoneKey) == Some(30) && link[36..] == d + q
  {
    var link := SendBase + d + q;
    assert link == SendBase + (d + q);
    SendBaseOccurrences();
    OccursPrefix(SendBase, d + q, SendForm, 8);
    OccursPrefix(SendBase, d + q, PhoneKey, 30);
    forall k | 0 <= k < 30 ensures !OccursAt(link, PhoneKey, k) {
      OccursPrefix(SendBase, d + q, PhoneKey, k);
    }
    IndexOfAt(link, PhoneKey, 30);
  }

  /**
   * A `https://api.whatsapp.com/send?phone=<number>` link, with or without further
   * `&` parameters, yields the digits of its number, whatever separators the number is
   * written with, as long as the parameters do not hold `wa.me/` (which the page looks
   * for first); a number of digits only is yielded exactly.
   */
  lemma SendLinkPhone(d: string, q: string)
    requires 'w' !in d && 'p' !in d && '&' !in d
    requires q == [] || q[0] == '&'
    requires !Includes(q, WaMe)
    ensures PhoneNumber(SendBase + d + q) == Digits(d)
    ensures AllDigits(d) ==> PhoneNumber(SendBase + d + q) == d
  {
    SendLinkHasNoWaMe(d, q);
    SendLinkPhoneKey(d, q);
    NumberBeforeMark(d, q, PhoneKey, '&');
    if AllDigits(d) {
      DigitsOfDigits(d);
    }
  }

  /**
   * A link that holds neither `wa.me/` nor the send form, such as a number written
   * with separators (`+234 801-234-5678`), yields all of its digits; a link of digits
   * only is its own phone number.
   */
  lemma BareNumberPhone(link: string)
    requires 'w' !in link && 'a' !in link
    ensures PhoneNumber(link) == Digits(link)
    ensures AllDigits(link) ==> PhoneNumber(link) == link
  {
    forall k | 0 <= k < |link| ensures !OccursAt(link, WaMe, k) && !OccursAt(link, SendForm, k) {
      assert link[k] in link;
      MismatchAt(link, WaMe, k, 0);
      MismatchAt(link, SendForm, k, 0);
    }
    if AllDigits(link) {
      DigitsOfDigits(link);
    }
  }

  /** The number the customer reaches for a link written as `+234 801-234-5678`. */
  lemma SeparatedNumberPhone()
    ensures PhoneNumber("+234 801-234-5678") == "2348012345678"
  {
    var link := "+234 801-234-5678";
    assert 'w' !in link && 'a' !in link;
    BareNumberPhone(link);
    DigitsOfSeparated();
  }

  lemma DigitsOfSeparated()
    ensures Digits("+234 801-234-5678") == "2348012345678"
  {
    SeparatedPieces();
    DigitsOfFour("+234 ", "801-", "234-", "5678");
    DigitsOfPieces();
    NumberPieces();
  }

  lemma SeparatedPieces()
    ensures "+234 801-234-5678" == "+234 " + "801-" + "234-" + "5678"
  {
  }

  lemma NumberPieces()
    ensures "234" + "801" + "234" + "5678" == "2348012345678"
  {
  }

  lemma DigitsOfPieces()
    ensures Digits("+234 ") == "234" && Digits("801-") == "801"
    ensures Digits("234-") == "234" && Digits("5678") == "5678"
  {
    DigitsOfCountryCode();
    DigitsOfGroup("801");
    DigitsOfGroup("234");
    DigitsOfDigits("5678");
  }

  lemma DigitsOfCountryCode()
    ensures Digits("+234 ") == "234"
  {
    assert "+234 " == ['+'] + "234" + [' '];
    DigitsChunk(['+'], "234", [' ']);
  }

  lemma DigitsOfGroup(d: string)
    requires AllDigits(d)
    ensures Digits(d + "-") == d
  {
    assert d + "-" == [] + d + ['-'];
    DigitsChunk([], d, ['-']);
  }

  lemma DigitsOfFour(a: string, b: string, c: string, e: string)
    ensures Digits(a + b + c + e) == Digits(a) + Digits(b) + Digits(c) + Digits(e)
  {
    DigitsAppend(a + b + c, e);
    DigitsAppend(a + b, c);
    DigitsAppend(a, b);
  }

  /** The digits of a number between two non-digit characters. */
  lemma DigitsChunk(before: string, d: string, after: string)
    requires AllDigits(d) && |before| <= 1 && |after| == 1
    requires forall k :: 0 <= k < |before| ==> !IsDigit(before[k])
    requires !IsDigit(after[0])
    ensures Digits(before + d + after) == d
  {
    DigitsAppend(before + d, after);
    DigitsAppend(before, d);
    DigitsOfDigits(d);
    assert Digits(after) == [];
    if before != [] {
      assert Digits(before) == [];
    }
  }

  /** A string of digits holds no other character. */
  lemma DigitsOnly(d: string, c: char)
    requires AllDigits(d) && !IsDigit(c)
    ensures c !in d
  {
  }

  /** The message sent along, before encoding. */
  function Greeting(productName: string): (r: string)
    ensures |r| == |productName| + 54
    ensures r[..22] == "Hi! I'm interested in " && r[22..22 + |productName|] == productName
    ensures r[22 + |productName|..] == ". Can you tell me more about it?"
  {
    "Hi! I'm interested in " + productName + ". Can you tell me more about it?"
  }

  /** A chat with the number when the link yields one; otherwise the link as it is. */
  function WhatsAppUrl(link: string, encodedMessage: string): (url: string)
    ensures PhoneNumber(link) != "" ==>
      url == WaMeBase + PhoneNumber(link) + "?text=" + encodedMessage
    ensures PhoneNumber(link) == "" ==> url == link
  {
    var phone := PhoneNumber(link);
    if phone != "" then WaMeBase + phone + "?text=" + encodedMessage else link
  }

  /** The chat URL the page builds leads to the same number as the vendor's link. */
  lemma WhatsAppUrlKeepsPhone(link: string, encodedMessage: string)
    ensures PhoneNumber(WhatsAppUrl(link, encodedMessage)) == PhoneNumber(link)
  {
    var phone := PhoneNumber(link);
    if phone != "" {
      var q := "?text=" + encodedMessage;
      assert WaMeBase + phone + "?text=" + encodedMessage == WaMeBase + phone + q;
      DigitsOnly(phone, 'w');
      DigitsOnly(phone, '?');
      WaMeLinkPhone(phone, q);
    }
  }

  /** Building the chat URL from its own result changes nothing. */
  lemma WhatsAppUrlIdempotent(link: string, encodedMessage: string)
    ensures WhatsAppUrl(WhatsAppUrl(link, encodedMessage), encodedMessage) == WhatsAppUrl(link, encodedMessage)
  {
    WhatsAppUrlKeepsPhone(link, encodedMessage);
  }

  function IsSlash(c: char): bool {
    c == '/'
  }

  /**
   * A link starting with `http` is used as it is; anything else is a handle: its first
   * `@` is removed, leading and trailing slashes are stripped, and it is appended to
   * `https://instagram.com/`.
   */
  function InstagramUrl(link: string): (url: string)
    ensures StartsWith(url, "http")
    ensures StartsWith(link, "http") ==> url == link
    ensures !StartsWith(link, "http") ==> StartsWith(url, InstagramBase)
  {
    if StartsWith(link, "http") then link
    else
      var handle := TrimBy(RemoveFirstChar(link, '@'), IsSlash);
      ProfileUrlPrefix(handle);
      InstagramBase + handle
  }

  lemma ProfileUrlPrefix(handle: string)
    ensures StartsWith(InstagramBase + handle, InstagramBase) && StartsWith(InstagramBase + handle, "http")
  {
    var url := InstagramBase + handle;
    assert url[..|InstagramBase|] == InstagramBase;
    assert url[..4] == InstagramBase[..4] == "http";
  }

  predicate AllSlashes(s: string) {
    forall k :: 0 <= k < |s| ==> s[k] == '/'
  }

  /**
   * A handle is the profile name with any slashes around it, written with or without a
   * leading `@`: both lead to `https://instagram.com/<name>`, for a name holding no `@`
   * and no slash at either end (and, without the `@`, not starting with `http`).
   */
  lemma InstagramHandleUrl(lead: string, name: string, trail: string)
    requires AllSlashes(lead) && AllSlashes(trail)
    requires '@' !in name
    requires name == [] || (name[0] != '/' && name[|name| - 1] != '/')
    ensures InstagramUrl("@" + (lead + name + trail)) == InstagramBase + name
    ensures !StartsWith(lead + name + trail, "http") ==> InstagramUrl(lead + name + trail) == InstagramBase + name
  {
    var bare := lead + name + trail;
    HandleHasNoAt(lead, name, trail);
    StripSlashes(lead, name, trail);
    InstagramUrlOfHandle(bare, TrimBy(bare, IsSlash));
  }

  /** Stripping slashes from a name padded with slashes gives back the name. */
  lemma StripSlashes(lead: string, name: string, trail: string)
    requires AllSlashes(lead) && AllSlashes(trail)
    requires name == [] || (name[0] != '/' && name[|name| - 1] != '/')
    ensures TrimBy(lead + name + trail, IsSlash) == name
  {
    TrimByAround(lead, name, trail, IsSlash);
  }

  /** Padding of slashes adds no `@` to a name. */
  lemma HandleHasNoAt(lead: string, name: string, trail: string)
    requires AllSlashes(lead) && AllSlashes(trail) && '@' !in name
    ensures '@' !in lead + name + trail
  {
    var bare := lead + name + trail;
    forall k | 0 <= k < |bare| ensures bare[k] != '@' {
      if k < |lead| {
        assert bare[k] == lead[k];
      } else if k < |lead| + |name| {
        assert bare[k] == name[k - |lead|];
      } else {
        assert bare[k] == trail[k - |lead| - |name|];
      }
    }
  }

  /** A handle without `@` only has its slashes stripped. */
  lemma InstagramUrlOfHandle(bare: string, stripped: string)
    requires '@' !in bare && stripped == TrimBy(bare, IsSlash)
    ensures !StartsWith(bare, "http") ==> InstagramUrl(bare) == InstagramBase + stripped
    ensures InstagramUrl("@" + bare) == InstagramBase + stripped
  {
    var link := "@" + bare;
    assert link == [] + ['@'] + bare;
    RemoveFirstCharAfter([], '@', bare);
    assert !StartsWith(link, "http") by {
      assert link[0] == '@';
    }
  }

  /**
   * Only the first `@` of a handle is removed, wherever it stands; any later `@` is
   * kept, and the slashes at either end of what remains are stripped.
   */
  lemma InstagramFirstAtRemoved(link: string, a: string, b: string)
    requires link == a + ['@'] + b && '@' !in a
    requires !StartsWith(link, "http")
    ensures InstagramUrl(link) == InstagramBase + TrimBy(a + b, IsSlash)
  {
    RemoveFirstCharAfter(a, '@', b);
  }

  /** A handle without `@` only loses the slashes at its ends. */
  lemma InstagramNoAt(link: string)
    requires '@' !in link && !StartsWith(link, "http")
    ensures InstagramUrl(link) == InstagramBase + TrimBy(link, IsSlash)
  {
  }

  /** Building the profile URL from its own result changes nothing. */
  lemma InstagramUrlIdempotent(link: string)
    ensures InstagramUrl(InstagramUrl(link)) == InstagramUrl(link)
  {
  }

  /** The link of a product for a platform, when it is present and not empty. */
  function LinkFor(product: Product, platform: Platform): (r: Option<string>)
    ensures var link := if platform == WhatsApp then product.whatsappLink else product.instagramLink;
      && (r.None? <==> link.None? || link.value == "")
      && (r.Some? ==> r == link)
  {
    var link := if platform == WhatsApp then product.whatsappLink else product.instagramLink;
    if link.Some? && link.value != "" then link else None
  }

  /**
   * `handleContact`: no URL when the chosen platform's link is absent or empty; for
   * WhatsApp the chat URL with the encoded greeting; for Instagram the profile URL.
   */
  function ContactUrl(product: Product, platform: Platform, encode: string -> string): (url: Option<string>)
    ensures url.None? <==> LinkFor(product, platform).None?
    ensures url.Some? && platform == WhatsApp ==>
      PhoneNumber(url.value) == PhoneNumber(product.whatsappLink.value)
      && (PhoneNumber(url.value) == "" ==> url.value == product.whatsappLink.value)
    ensures url.Some? && platform == Instagram ==> StartsWith(url.value, "http")
    ensures url.Some? && platform == WhatsApp ==>
      url.value == WhatsAppUrl(product.whatsappLink.value, encode(Greeting(product.name)))
    ensures url.Some? && platform == Instagram ==> url.value == InstagramUrl(product.instagramLink.value)
  {
    match LinkFor(product, platform)
    case None => None
    case Some(link) =>
      if platform == WhatsApp then
        WhatsAppUrlKeepsPhone(link, encode(Greeting(product.name)));
        Some(WhatsAppUrl(link, encode(Greeting(product.name))))
      else
        Some(InstagramUrl(link))
  }
}
