/**
 * The demo chat stylist: the fixed demo inventory, lookup by id, image selection, the
 * outfit ("kombin") pairing of categories, the keyword-driven fallback reply, and the
 * step of the chat endpoint that turns the product ids of a reply into product cards.
 * The inventory is a parameter of the operations; `DemoInventory` is the one the
 * application passes.
 */
module App {
  import opened Wrappers
  import opened Text

  /** One inventory item. `imageKey` is optional because the lookup defaults it. */
  datatype InventoryItem = InventoryItem(
    id: string,
    name: string,
    brand: string,
    category: string,
    categoryEn: string,
    price: string,
    fitType: string,
    color: string,
    fabric: string,
    keywords: seq<string>,
    imageKey: Option<string>)

  type Inventory = seq<InventoryItem>

  const Shirt: string := "g√∂mlek"
  const Jacket: string := "ceket"
  const Pants: string := "pantolon"

  const DemoInventory: Inventory := [
    InventoryItem("2608e0bf-7f8c-47bb-b6c5-84200460638b", "Slim Fit Klasik Yaka G√∂mlek", "Beymen Club",
                  Shirt, "shirt", "2.499 TL", "Slim Fit", "Beyaz", "%100 Pamuk",
                  ["g√∂mlek", "shirt", "beyaz", "white", "slim", "klasik"], Some("shirt_white")),
    InventoryItem("c5118cf5-aa71-434e-8f2a-2b159c9d8bc7", "Regular Fit Oxford G√∂mlek", "Beymen Club",
                  Shirt, "shirt", "1.899 TL", "Regular Fit", "Mavi", "%100 Pamuk",
                  ["g√∂mlek", "shirt", "mavi", "blue", "oxford", "regular"], Some("shirt_blue")),
    InventoryItem("57337148-0b35-4141-84b3-bc9ea4f55aa0", "Slim Fit Pamuklu G√∂mlek", "Network",
                  Shirt, "shirt", "1.599 TL", "Slim Fit", "Lacivert", "%97 Pamuk, %3 Elastan",
                  ["g√∂mlek", "shirt", "lacivert", "navy", "slim", "pamuk"], Some("shirt_navy")),
    InventoryItem("a1b2c3d4-e5f6-7890-abcd-ef1234567890", "Kruvaze Lacivert Blazer Ceket", "Beymen Club",
                  Jacket, "jacket", "8.999 TL", "Slim Fit", "Lacivert", "%55 Y√ºn, %45 Polyester",
                  ["ceket", "jacket", "blazer", "lacivert", "navy", "kruvaze", "double-breasted"], Some("blazer_navy")),
    InventoryItem("b2c3d4e5-f6a7-8901-bcde-f23456789012", "Slim Fit Chino Pantolon", "Network",
                  Pants, "pants", "1.799 TL", "Slim Fit", "Bej", "%98 Pamuk, %2 Elastan",
                  ["pantolon", "pants", "chino", "bej", "beige", "slim"], Some("chino_beige")),
    InventoryItem("c3d4e5f6-a7b8-9012-cdef-345678901234", "Klasik Kesim Y√ºn Pantolon", "Beymen Club",
                  Pants, "pants", "3.499 TL", "Regular Fit", "Antrasit", "%70 Y√ºn, %30 Polyester",
                  ["pantolon", "pants", "klasik", "y√ºn", "wool", "antrasit", "grey"], Some("pants_grey"))
  ]

  const DefaultImageKey: string := "default"

  const ImageUrls: map<string, string> := map[
    "shirt_white" := "https://images.unsplash.com/photo-1602810318383-e386cc2a3ccf?w=400&q=80",
    "shirt_blue" := "https://images.unsplash.com/photo-1620799140408-edc6dcb6d633?w=400&q=80",
    "shirt_navy" := "https://images.unsplash.com/photo-1596755094514-f87e34085b2c?w=400&q=80",
    "blazer_navy" := "https://images.unsplash.com/photo-1594938298603-c8148c4dae35?w=400&q=80",
    "chino_beige" := "https://images.unsplash.com/photo-1473966968600-fa801b869a1a?w=400&q=80",
    "pants_grey" := "https://images.unsplash.com/photo-1624378439575-d8705ad7ae80?w=400&q=80",
    "default" := "https://images.unsplash.com/photo-1441986300917-64674bd600d8?w=400&q=80"
  ]

  // --- Lookup ---

  /** `get_product_image`: the URL of the item's image key, defaulting both the key and the URL. */
  function ProductImage(urls: map<string, string>, item: InventoryItem): (r: string)
    requires DefaultImageKey in urls
    ensures item.imageKey.Some? && item.imageKey.value in urls ==> r == urls[item.imageKey.value]
    ensures item.imageKey.None? || item.imageKey.value !in urls ==> r == urls[DefaultImageKey]
    ensures r in urls.Values
  {
    var key := item.imageKey.GetOr(DefaultImageKey);
    if key in urls then urls[key] else urls[DefaultImageKey]
  }

  /**
   * The index of the first item satisfying `p`: `next((x for x in inventory if p(x)), None)`
   * and the early-return loops over the inventory.
   */
  function First(inventory: Inventory, p: InventoryItem -> bool): (r: Option<nat>)
    ensures r.Some? ==> r.value < |inventory| && p(inventory[r.value])
    ensures r.Some? ==> forall j :: 0 <= j < r.value ==> !p(inventory[j])
    ensures r.None? <==> forall j :: 0 <= j < |inventory| ==> !p(inventory[j])
  {
    if inventory == [] then None
    else if p(inventory[0]) then Some(0)
    else
      match First(inventory[1..], p)
      case None => None
      case Some(i) => Some(i + 1)
  }

  /** The first item satisfying `p`, if any. */
  function Pick(inventory: Inventory, p: InventoryItem -> bool): Option<InventoryItem> {
    match First(inventory, p)
    case Some(i) => Some(inventory[i])
    case None => None
  }

  /** The loop `for p in inventory: if p(x): return x`, with its final `return None`. */
  method FindFirst(inventory: Inventory, p: InventoryItem -> bool) returns (r: Option<InventoryItem>)
    ensures r == Pick(inventory, p)
  {
    var i := 0;
    while i < |inventory|
      invariant 0 <= i <= |inventory|
      invariant forall j :: 0 <= j < i ==> !p(inventory[j])
    {
      if p(inventory[i]) {
        assert First(inventory, p) == Some(i);
        return Some(inventory[i]);
      }
      i := i + 1;
    }
    return None;
  }

  function HasId(productId: string): InventoryItem -> bool {
    (item: InventoryItem) => item.id == productId
  }

  function InCategory(category: string): InventoryItem -> bool {
    (item: InventoryItem) => item.category == category
  }

  function InEitherCategory(a: string, b: string): InventoryItem -> bool {
    (item: InventoryItem) => item.category == a || item.category == b
  }

  /** `find_product_by_id` on a given inventory. */
  function FindById(inventory: Inventory, productId: string): Option<InventoryItem> {
    Pick(inventory, HasId(productId))
  }

  /** `find_product_by_id`. */
  method FindProductById(inventory: Inventory, productId: string) returns (r: Option<InventoryItem>)
    ensures r == FindById(inventory, productId)
  {
    r := FindFirst(inventory, HasId(productId));
  }

  /**
   * The lookup answers with the first item carrying the id, and with `None` exactly when
   * no item carries it.
   */
  lemma FindByIdIsFirst(inventory: Inventory, productId: string)
    ensures FindById(inventory, productId).None? <==> forall j :: 0 <= j < |inventory| ==> inventory[j].id != productId
    ensures FindById(inventory, productId).Some? ==>
      exists i :: 0 <= i < |inventory| && FindById(inventory, productId) == Some(inventory[i])
        && inventory[i].id == productId && forall j :: 0 <= j < i ==> inventory[j].id != productId
  {
    var p := HasId(productId);
    match First(inventory, p)
    case None =>
      assert forall j :: 0 <= j < |inventory| ==> !p(inventory[j]);
    case Some(i) =>
      assert p(inventory[i]);
      assert forall j :: 0 <= j < i ==> !p(inventory[j]);
  }

  /** Ids told apart: no two items share an id. */
  predicate DistinctIds(inventory: Inventory) {
    forall i, j :: 0 <= i < j < |inventory| ==> inventory[i].id != inventory[j].id
  }

  /** With distinct ids, looking up an item's id gives back that item. */
  lemma FindOwnId(inventory: Inventory, i: nat)
    requires DistinctIds(inventory) && i < |inventory|
    ensures FindById(inventory, inventory[i].id) == Some(inventory[i])
  {
    var p := HasId(inventory[i].id);
    assert p(inventory[i]);
    var k := First(inventory, p).value;
    assert inventory[k].id == inventory[i].id;
  }

  /** The demo ids are distinct (their second characters already differ). */
  lemma DemoIdsDistinct()
    ensures DistinctIds(DemoInventory)
  {
    var seconds := "657123";
    assert DemoInventory[0].id[1] == seconds[0];
    assert DemoInventory[1].id[1] == seconds[1];
    assert DemoInventory[2].id[1] == seconds[2];
    assert DemoInventory[3].id[1] == seconds[3];
    assert DemoInventory[4].id[1] == seconds[4];
    assert DemoInventory[5].id[1] == seconds[5];
  }

  /** Every demo item has an image of its own, not the default one. */
  lemma DemoImagesMapped()
    ensures forall i :: 0 <= i < |DemoInventory| ==>
      DemoInventory[i].imageKey.Some? && DemoInventory[i].imageKey.value in ImageUrls
  {
  }

  // --- Outfit pairing ---

  /**
   * `get_combo_suggestion`: a jacket is paired with the first pants, a shirt with the
   * first jacket, pants with the first shirt or jacket; other categories get nothing.
   */
  function ComboSuggestion(inventory: Inventory, main: InventoryItem): Option<InventoryItem> {
    if main.category == Jacket then Pick(inventory, InCategory(Pants))
    else if main.category == Shirt then Pick(inventory, InCategory(Jacket))
    else if main.category == Pants then Pick(inventory, InEitherCategory(Shirt, Jacket))
    else None
  }

  /** `get_combo_suggestion`, running the source's early-return loops. */
  method GetComboSuggestion(inventory: Inventory, main: InventoryItem) returns (r: Option<InventoryItem>)
    ensures r == ComboSuggestion(inventory, main)
  {
    var category := main.category;
    if category == Jacket {
      r := FindFirst(inventory, InCategory(Pants));
    } else if category == Shirt {
      r := FindFirst(inventory, InCategory(Jacket));
    } else if category == Pants {
      r := FindFirst(inventory, InEitherCategory(Shirt, Jacket));
    } else {
      r := None;
    }
  }

  lemma PickSatisfies(inventory: Inventory, p: InventoryItem -> bool)
    ensures Pick(inventory, p).Some? ==> Pick(inventory, p).value in inventory && p(Pick(inventory, p).value)
    ensures Pick(inventory, p).None? <==> forall j :: 0 <= j < |inventory| ==> !p(inventory[j])
  {
  }

  /**
   * A suggestion comes from the inventory, is of another category than the main item,
   * and is one of the three garment categories; when the inventory holds an item of a
   * matching category, there is a suggestion.
   */
  lemma ComboIsComplementary(inventory: Inventory, main: InventoryItem)
    ensures var c := ComboSuggestion(inventory, main);
      && (c.Some? ==> c.value in inventory && c.value.category != main.category)
      && (main.category == Jacket && c.Some? ==> c.value.category == Pants)
      && (main.category == Shirt && c.Some? ==> c.value.category == Jacket)
      && (main.category == Pants && c.Some? ==> c.value.category == Shirt || c.value.category == Jacket)
      && (main.category != Jacket && main.category != Shirt && main.category != Pants ==> c.None?)
    ensures ComboSuggestion(inventory, main).None? && main.category == Jacket ==>
      forall j :: 0 <= j < |inventory| ==> inventory[j].category != Pants
    ensures ComboSuggestion(inventory, main).None? && main.category == Shirt ==>
      forall j :: 0 <= j < |inventory| ==> inventory[j].category != Jacket
  {
    PickSatisfies(inventory, InCategory(Pants));
    PickSatisfies(inventory, InCategory(Jacket));
    PickSatisfies(inventory, InEitherCategory(Shirt, Jacket));
    ghost var c := ComboSuggestion(inventory, main);
    if c.None? && main.category == Jacket {
      assert forall j :: 0 <= j < |inventory| ==> !InCategory(Pants)(inventory[j]);
    }
    if c.None? && main.category == Shirt {
      assert forall j :: 0 <= j < |inventory| ==> !InCategory(Jacket)(inventory[j]);
    }
  }

  // --- Fallback reply ---

  /** The reply of the language model or of the fallback: a message and two optional ids. */
  datatype AiResponse = AiResponse(message: Option<string>, recommendedId: Option<string>, relatedId: Option<string>)

  /** The colour a shirt request names. */
  datatype ShirtColour = Blue | White | AnyColour

  /** The intent the fallback detects, in the order it tests them. */
  datatype Intent = JacketIntent | PantsIntent | ShirtIntent(colour: ShirtColour) | SizeIntent | OutfitIntent | NoIntent

  const JacketWords: seq<string> := ["ceket", "blazer", "jacket"]
  const PantsWords: seq<string> := ["pantolon", "chino", "pants"]
  const ShirtWords: seq<string> := ["g√∂mlek", "shirt"]
  const BlueWords: seq<string> := ["mavi", "blue"]
  const WhiteWords: seq<string> := ["beyaz", "white"]
  const SizeWords: seq<string> := ["beden", "√∂l√ß√º", "size"]
  const OutfitWords: seq<string> := ["kombin", "outfit"]

  /** `w1 in text or w2 in text or ...`. */
  predicate Mentions(text: string, words: seq<string>) {
    exists k :: 0 <= k < |words| && Contains(text, words[k])
  }

  /** The if/elif chain on the lower-cased message. */
  function DetectIntent(lower: string): Intent {
    if Mentions(lower, JacketWords) then JacketIntent
    else if Mentions(lower, PantsWords) then PantsIntent
    else if Mentions(lower, ShirtWords) then
      ShirtIntent(if Mentions(lower, BlueWords) then Blue else if Mentions(lower, WhiteWords) then White else AnyColour)
    else if Mentions(lower, SizeWords) then SizeIntent
    else if Mentions(lower, OutfitWords) then OutfitIntent
    else NoIntent
  }

  /** `combo["id"] if combo else None`. */
  function IdOf(item: Option<InventoryItem>): Option<string> {
    match item
    case Some(p) => Some(p.id)
    case None => None
  }

  const SizeHelpText: string := "Beden √∂nerisi i√ßin size yardƒ±mcƒ± olabilirim. Hangi √ºr√ºn i√ßin beden arƒ±yorsunuz? √úr√ºn√º se√ßtikten sonra boy ve kilonuzu yazarsanƒ±z size en uygun bedeni bulabilirim."
  const WelcomeText: string := "Beymen'e ho≈ü geldiniz efendim. Size nasƒ±l yardƒ±mcƒ± olabilirim? G√∂mlek, ceket veya pantolon mu arƒ±yorsunuz? Beden √∂nerisi de verebilirim."
  const OutfitIntro: string := "M√ºkemmel bir kombin i√ßin ≈üunlarƒ± √∂nerebilirim:\n"
  const OutfitOutro: string := "\nBu √º√ßl√º birlikte √ßok ≈üƒ±k g√∂r√ºnecektir."

  /** The default reply, also reached when a category intent finds no product. */
  const Welcome: AiResponse := AiResponse(Some(WelcomeText), None, None)

  function JacketText(product: InventoryItem, combo: Option<InventoryItem>): string {
    "Memnuniyetle efendim. Size " + product.brand + " " + product.name + " √∂nerebilirim. " + product.price
      + " fiyatƒ±yla m√ºkemmel bir se√ßim."
      + (match combo
         case Some(c) => " Bu ceketin altƒ±na " + c.brand + " " + c.name + " (" + c.color + ") harika bir kombin olu≈üturur."
         case None => "")
  }

  function PantsText(product: InventoryItem, combo: Option<InventoryItem>): string {
    "Tabii efendim. " + product.brand + " " + product.name + " tam size g√∂re. " + product.fitType + " kesimi ve "
      + product.color + " rengi √ßok ≈üƒ±k."
      + (match combo
         case Some(c) => " √úst√ºne " + c.brand + " " + c.name + " ile harika g√∂r√ºn√ºrs√ºn√ºz."
         case None => "")
  }

  function ShirtText(product: InventoryItem, combo: Option<InventoryItem>): string {
    "Elbette efendim. " + product.brand + " " + product.name + " (" + product.color + ") harika bir se√ßim. "
      + product.fitType + " kalƒ±bƒ± ve " + product.fabric + " kuma≈üƒ±yla √ßok konforlu."
      + (match combo
         case Some(c) => " Bu g√∂mlekle " + c.brand + " " + c.name + " kombinleyebilirsiniz."
         case None => "")
  }

  /** A category reply: the product, its pairing and the text built from both, or the welcome. */
  function PitchReply(inventory: Inventory, product: Option<InventoryItem>, text: (InventoryItem, Option<InventoryItem>) -> string): AiResponse {
    match product
    case None => Welcome
    case Some(p) =>
      var combo := ComboSuggestion(inventory, p);
      AiResponse(Some(text(p, combo)), Some(p.id), IdOf(combo))
  }

  /** The shirt of the requested colour: its lower-cased colour names it. */
  function ShirtFilter(colour: ShirtColour): InventoryItem -> bool {
    match colour
    case Blue => (item: InventoryItem) => item.category == Shirt && Contains(Lower(item.color), "mavi")
    case White => (item: InventoryItem) => item.category == Shirt && Contains(Lower(item.color), "beyaz")
    case AnyColour => InCategory(Shirt)
  }

  /** One bullet line of the outfit reply. */
  function Bullet(item: InventoryItem): string {
    "‚Ä¢ " + item.brand + " " + item.name + " (" + item.price + ")\n"
  }

  function BulletOf(item: Option<InventoryItem>): string {
    match item
    case Some(p) => Bullet(p)
    case None => ""
  }

  /** The outfit text: jacket, shirt and pants lines, each only when the item exists. */
  function OutfitText(jacket: Option<InventoryItem>, shirt: Option<InventoryItem>, pants: Option<InventoryItem>): string {
    OutfitIntro + BulletOf(jacket) + BulletOf(shirt) + BulletOf(pants) + OutfitOutro
  }

  function OutfitReply(inventory: Inventory): AiResponse {
    var jacket := Pick(inventory, InCategory(Jacket));
    var pants := Pick(inventory, InCategory(Pants));
    var shirt := Pick(inventory, InCategory(Shirt));
    AiResponse(Some(OutfitText(jacket, shirt, pants)), IdOf(jacket), IdOf(pants))
  }

  /** The reply for a detected intent. */
  function Reply(inventory: Inventory, intent: Intent): AiResponse {
    match intent
    case JacketIntent => PitchReply(inventory, Pick(inventory, InCategory(Jacket)), JacketText)
    case PantsIntent => PitchReply(inventory, Pick(inventory, InCategory(Pants)), PantsText)
    case ShirtIntent(colour) => PitchReply(inventory, Pick(inventory, ShirtFilter(colour)), ShirtText)
    case SizeIntent => AiResponse(Some(SizeHelpText), None, None)
    case OutfitIntent => OutfitReply(inventory)
    case NoIntent => Welcome
  }

  /** `fallback_response` on a given inventory. */
  function Fallback(inventory: Inventory, userMessage: string): AiResponse {
    Reply(inventory, DetectIntent(Lower(userMessage)))
  }

  /** The outfit branch of `fallback_response`, accumulating its message line by line. */
  method FallbackOutfit(inventory: Inventory) returns (r: AiResponse)
    ensures r == OutfitReply(inventory)
  {
    var jacket := FindFirst(inventory, InCategory(Jacket));
    var pants := FindFirst(inventory, InCategory(Pants));
    var shirt := FindFirst(inventory, InCategory(Shirt));
    var msg := OutfitIntro;
    if jacket.Some? {
      msg := msg + Bullet(jacket.value);
    }
    assert msg == OutfitIntro + BulletOf(jacket);
    if shirt.Some? {
      msg := msg + Bullet(shirt.value);
    }
    assert msg == OutfitIntro + BulletOf(jacket) + BulletOf(shirt);
    if pants.Some? {
      msg := msg + Bullet(pants.value);
    }
    assert msg == OutfitIntro + BulletOf(jacket) + BulletOf(shirt) + BulletOf(pants);
    msg := msg + OutfitOutro;
    r := AiResponse(Some(msg), IdOf(jacket), IdOf(pants));
  }

  /**
   * Intents are tested in priority order: jacket before pants before shirt before a
   * size question before an outfit request.
   */
  lemma IntentPriority(lower: string)
    ensures DetectIntent(lower) == JacketIntent <==> Mentions(lower, JacketWords)
    ensures DetectIntent(lower) == PantsIntent <==> !Mentions(lower, JacketWords) && Mentions(lower, PantsWords)
    ensures DetectIntent(lower).ShirtIntent? <==>
      !Mentions(lower, JacketWords) && !Mentions(lower, PantsWords) && Mentions(lower, ShirtWords)
    ensures DetectIntent(lower) == SizeIntent <==>
      !Mentions(lower, JacketWords) && !Mentions(lower, PantsWords) && !Mentions(lower, ShirtWords) && Mentions(lower, SizeWords)
    ensures DetectIntent(lower) == OutfitIntent <==>
      !Mentions(lower, JacketWords) && !Mentions(lower, PantsWords) && !Mentions(lower, ShirtWords)
      && !Mentions(lower, SizeWords) && Mentions(lower, OutfitWords)
    ensures DetectIntent(lower).ShirtIntent? ==>
      (DetectIntent(lower).colour == Blue <==> Mentions(lower, BlueWords))
      && (DetectIntent(lower).colour == White <==> !Mentions(lower, BlueWords) && Mentions(lower, WhiteWords))
  {
  }

  /** The fallback reads the message case-insensitively. */
  lemma FallbackIgnoresCase(inventory: Inventory, userMessage: string)
    ensures Fallback(inventory, Lower(userMessage)) == Fallback(inventory, userMessage)
  {
    LowerIdempotent(userMessage);
  }

  /** The product a category intent recommends: the first item of its category or colour. */
  function IntentProduct(inventory: Inventory, intent: Intent): Option<InventoryItem> {
    match intent
    case JacketIntent => Pick(inventory, InCategory(Jacket))
    case PantsIntent => Pick(inventory, InCategory(Pants))
    case ShirtIntent(colour) => Pick(inventory, ShirtFilter(colour))
    case _ => None
  }

  predicate IsCategoryIntent(intent: Intent) {
    intent == JacketIntent || intent == PantsIntent || intent.ShirtIntent?
  }

  /**
   * The ids a reply carries: a category reply recommends its product and relates that
   * product's pairing, and without a product it is the welcome with no ids; the size
   * question and the welcome carry no ids; the outfit reply recommends the first jacket
   * and relates the first pants.
   */
  lemma ReplyIds(inventory: Inventory, intent: Intent)
    ensures IsCategoryIntent(intent) && IntentProduct(inventory, intent).None? ==> Reply(inventory, intent) == Welcome
    ensures IsCategoryIntent(intent) && IntentProduct(inventory, intent).Some? ==>
      && Reply(inventory, intent).recommendedId == Some(IntentProduct(inventory, intent).value.id)
      && Reply(inventory, intent).relatedId == IdOf(ComboSuggestion(inventory, IntentProduct(inventory, intent).value))
    ensures intent == SizeIntent || intent == NoIntent ==>
      Reply(inventory, intent).recommendedId.None? && Reply(inventory, intent).relatedId.None?
    ensures intent == OutfitIntent ==>
      && Reply(inventory, intent).recommendedId == IdOf(Pick(inventory, InCategory(Jacket)))
      && Reply(inventory, intent).relatedId == IdOf(Pick(inventory, InCategory(Pants)))
  {
  }

  /** The product of a category intent is in the inventory and of the requested kind. */
  lemma IntentProductMatches(inventory: Inventory, intent: Intent)
    requires IntentProduct(inventory, intent).Some?
    ensures IntentProduct(inventory, intent).value in inventory
    ensures intent == JacketIntent ==> IntentProduct(inventory, intent).value.category == Jacket
    ensures intent == PantsIntent ==> IntentProduct(inventory, intent).value.category == Pants
    ensures intent.ShirtIntent? ==> IntentProduct(inventory, intent).value.category == Shirt
    ensures intent == ShirtIntent(Blue) ==> Contains(Lower(IntentProduct(inventory, intent).value.color), "mavi")
    ensures intent == ShirtIntent(White) ==> Contains(Lower(IntentProduct(inventory, intent).value.color), "beyaz")
  {
    match intent
    case JacketIntent => PickSatisfies(inventory, InCategory(Jacket));
    case PantsIntent => PickSatisfies(inventory, InCategory(Pants));
    case ShirtIntent(colour) =>
      var f := ShirtFilter(colour);
      PickSatisfies(inventory, f);
      assert f(IntentProduct(inventory, intent).value);
  }

  /**
   * A blue or white shirt request finds nothing, and falls back to the welcome rather than
   * to another shirt, exactly when no shirt of that colour is in the inventory.
   */
  lemma ShirtColourMissing(inventory: Inventory, colour: ShirtColour)
    requires colour != AnyColour
    ensures var word := if colour == Blue then "mavi" else "beyaz";
      IntentProduct(inventory, ShirtIntent(colour)).None? <==>
        forall i :: 0 <= i < |inventory| ==> !(inventory[i].category == Shirt && Contains(Lower(inventory[i].color), word))
  {
    var f := ShirtFilter(colour);
    PickSatisfies(inventory, f);
    var word := if colour == Blue then "mavi" else "beyaz";
    assert forall i :: 0 <= i < |inventory| ==> (f(inventory[i]) <==> inventory[i].category == Shirt && Contains(Lower(inventory[i].color), word));
  }

  /** A picked item resolves by its id. */
  lemma PickIsFoundById(inventory: Inventory, item: InventoryItem)
    requires item in inventory
    ensures FindById(inventory, item.id).Some?
  {
    var i :| 0 <= i < |inventory| && inventory[i] == item;
    assert HasId(item.id)(inventory[i]);
  }

  /** The ids of every reply name items of the inventory. */
  lemma ReplyIdsResolve(inventory: Inventory, intent: Intent)
    ensures Reply(inventory, intent).recommendedId.Some? ==> FindById(inventory, Reply(inventory, intent).recommendedId.value).Some?
    ensures Reply(inventory, intent).relatedId.Some? ==> FindById(inventory, Reply(inventory, intent).relatedId.value).Some?
  {
    ReplyIds(inventory, intent);
    var product := IntentProduct(inventory, intent);
    if IsCategoryIntent(intent) && product.Some? {
      IntentProductMatches(inventory, intent);
      PickIsFoundById(inventory, product.value);
      ComboIsComplementary(inventory, product.value);
      var combo := ComboSuggestion(inventory, product.value);
      if combo.Some? {
        PickIsFoundById(inventory, combo.value);
      }
    } else if intent == OutfitIntent {
      var jacket := Pick(inventory, InCategory(Jacket));
      var pants := Pick(inventory, InCategory(Pants));
      PickSatisfies(inventory, InCategory(Jacket));
      PickSatisfies(inventory, InCategory(Pants));
      if jacket.Some? {
        PickIsFoundById(inventory, jacket.value);
      }
      if pants.Some? {
        PickIsFoundById(inventory, pants.value);
      }
    }
  }

  // --- Chat reply ---

  /** The product object of a chat reply. */
  datatype ProductCard = ProductCard(
    id: string, name: string, brand: string, price: string, fitType: string, color: string, category: string, imageUrl: string)

  datatype ChatResponse = ChatResponse(
    message: string, mainProduct: Option<ProductCard>, comboProduct: Option<ProductCard>, conversationId: Option<string>)

  const ChatErrorText: string := "√ñz√ºr dilerim, bir sorun olu≈ütu."

  function Card(item: InventoryItem): ProductCard {
    ProductCard(item.id, item.name, item.brand, item.price, item.fitType, item.color, item.category, ProductImage(ImageUrls, item))
  }

  /** `if response.get(key): product = find_product_by_id(...)`: a truthy id that resolves. */
  function Resolve(inventory: Inventory, productId: Option<string>): (r: Option<ProductCard>)
    ensures r.Some? <==> productId.Some? && productId.value != "" && FindById(inventory, productId.value).Some?
    ensures r.Some? ==> r == Some(Card(FindById(inventory, productId.value).value)) && r.value.id == productId.value
  {
    if productId.Some? && productId.value != "" then
      match FindById(inventory, productId.value)
      case Some(item) =>
        assert item.id == productId.value by {
          FindByIdIsFirst(inventory, productId.value);
        }
        Some(Card(item))
      case None => None
    else None
  }

  /** The product-resolution step of `chat_with_ai`, given the model's or the fallback's reply. */
  function ChatReply(inventory: Inventory, response: AiResponse, conversationId: Option<string>): ChatResponse {
    ChatResponse(response.message.GetOr(ChatErrorText), Resolve(inventory, response.recommendedId),
                 Resolve(inventory, response.relatedId), conversationId)
  }

  /**
   * The chat shows the products of a fallback reply exactly when the reply names them,
   * with the named ids, and passes the fallback's message through.
   */
  lemma ChatShowsReplyProducts(inventory: Inventory, intent: Intent, conversationId: Option<string>)
    requires forall i :: 0 <= i < |inventory| ==> inventory[i].id != ""
    ensures var r := Reply(inventory, intent);
      var chat := ChatReply(inventory, r, conversationId);
      && r.message.Some? && chat.message == r.message.value
      && (chat.mainProduct.Some? <==> r.recommendedId.Some?)
      && (chat.mainProduct.Some? ==> chat.mainProduct.value.id == r.recommendedId.value)
      && (chat.comboProduct.Some? <==> r.relatedId.Some?)
      && (chat.comboProduct.Some? ==> chat.comboProduct.value.id == r.relatedId.value)
  {
    ReplyIdsResolve(inventory, intent);
    ReplyHasMessage(inventory, intent);
    ChatShowsResolvedIds(inventory, Reply(inventory, intent), conversationId);
  }

  /** Every fallback reply carries a message. */
  lemma ReplyHasMessage(inventory: Inventory, intent: Intent)
    ensures Reply(inventory, intent).message.Some?
  {
  }

  /** A reply whose ids all resolve gets a card for exactly the ids it names. */
  lemma ChatShowsResolvedIds(inventory: Inventory, response: AiResponse, conversationId: Option<string>)
    requires forall i :: 0 <= i < |inventory| ==> inventory[i].id != ""
    requires response.recommendedId.Some? ==> FindById(inventory, response.recommendedId.value).Some?
    requires response.relatedId.Some? ==> FindById(inventory, response.relatedId.value).Some?
    ensures var chat := ChatReply(inventory, response, conversationId);
      && (response.message.Some? ==> chat.message == response.message.value)
      && (chat.mainProduct.Some? <==> response.recommendedId.Some?)
      && (chat.mainProduct.Some? ==> chat.mainProduct.value.id == response.recommendedId.value)
      && (chat.comboProduct.Some? <==> response.relatedId.Some?)
      && (chat.comboProduct.Some? ==> chat.comboProduct.value.id == response.relatedId.value)
  {
    if response.recommendedId.Some? {
      FallbackIdNonEmpty(inventory, response.recommendedId.value);
    }
    if response.relatedId.Some? {
      FallbackIdNonEmpty(inventory, response.relatedId.value);
    }
  }

  /** An id that resolves when no item has an empty id is itself non-empty. */
  lemma FallbackIdNonEmpty(inventory: Inventory, productId: string)
    requires forall i :: 0 <= i < |inventory| ==> inventory[i].id != ""
    requires FindById(inventory, productId).Some?
    ensures productId != ""
  {
    FindByIdIsFirst(inventory, productId);
  }

  /** A reply with no message gets the apology text; ids that do not resolve show no product. */
  lemma ChatUnresolvedIds(inventory: Inventory, response: AiResponse, conversationId: Option<string>)
    ensures response.message.None? ==> ChatReply(inventory, response, conversationId).message == ChatErrorText
    ensures response.recommendedId.Some? && FindById(inventory, response.recommendedId.value).None? ==>
      ChatReply(inventory, response, conversationId).mainProduct.None?
    ensures response.relatedId.Some? && FindById(inventory, response.relatedId.value).None? ==>
      ChatReply(inventory, response, conversationId).comboProduct.None?
    ensures ChatReply(inventory, response, conversationId).conversationId == conversationId
  {
  }

  /** `chat_with_ai`'s resolution step, filling the two product slots one after the other. */
  method ChatWithAi(inventory: Inventory, response: AiResponse, conversationId: Option<string>) returns (r: ChatResponse)
    ensures r == ChatReply(inventory, response, conversationId)
  {
    var mainProduct: Option<ProductCard> := None;
    var comboProduct: Option<ProductCard> := None;
    if response.recommendedId.Some? && response.recommendedId.value != "" {
      var product := FindProductById(inventory, response.recommendedId.value);
      if product.Some? {
        mainProduct := Some(Card(product.value));
      }
    }
    if response.relatedId.Some? && response.relatedId.value != "" {
      var related := FindProductById(inventory, response.relatedId.value);
      if related.Some? {
        comboProduct := Some(Card(related.value));
      }
    }
    r := ChatResponse(response.message.GetOr(ChatErrorText), mainProduct, comboProduct, conversationId);
  }
}
