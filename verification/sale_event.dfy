/** One raw `successful` event from the marketplace feed and the pure part of
    `formatAndSendEmbed`: the asset/bundle field fallback, the buyer display,
    and the title and description templates. Every property the code reads is
    a `Js` value, because the code reads them with `_.get` and never checks
    their shape. */
module SaleEvent {
  import opened Wrappers
  import opened JsValue

  /** The part of `asset` (single item) or `asset_bundle` (bundle sale) the
      bot reads. */
  datatype Asset = Asset(
    name: Js<string>,
    permalink: Js<string>,
    tokenMetadata: Js<string>,
    imageUrl: Js<string>)

  datatype User = User(username: Js<string>)

  datatype Account = Account(address: Js<string>, user: Js<User>)

  /** A raw sale event. `createdMillis` is `created_date` already parsed to
      milliseconds since the Unix epoch. */
  datatype RawEvent = RawEvent(
    asset: Js<Asset>,
    assetBundle: Js<Asset>,
    winnerAccount: Js<Account>,
    createdMillis: int)

  /** The asset fields that are looked up with an `asset_bundle` fallback. */
  datatype AssetField = Name | Permalink | TokenMetadata

  function FieldOf(a: Asset, f: AssetField): Js<string> {
    match f
    case Name => a.name
    case Permalink => a.permalink
    case TokenMetadata => a.tokenMetadata
  }

  /** True when `asset.<f>` resolves to something other than `undefined`. */
  predicate AssetDefines(e: RawEvent, f: AssetField) {
    e.asset.Defined? && !FieldOf(e.asset.value, f).Undefined?
  }

  /** `_.get(event, ['asset', f], _.get(event, ['asset_bundle', f]))`. */
  function FromAssetOrBundle(e: RawEvent, f: AssetField): (r: Js<string>)
    ensures AssetDefines(e, f) ==> r == FieldOf(e.asset.value, f)
    ensures !AssetDefines(e, f) && e.assetBundle.Defined? ==> r == FieldOf(e.assetBundle.value, f)
    ensures !AssetDefines(e, f) && !e.assetBundle.Defined? ==> r == Undefined
  {
    OrElse(Get(e.asset, (a: Asset) => FieldOf(a, f)),
           Get(e.assetBundle, (a: Asset) => FieldOf(a, f)))
  }

  /** The `asset_bundle` value is only ever the answer when `asset` gives
      `undefined` for that field; a defined `asset` value, even `null`, wins. */
  lemma BundleOnlyAsFallback(e: RawEvent, f: AssetField)
    requires e.asset.Defined? && e.assetBundle.Defined?
    requires FieldOf(e.asset.value, f) != FieldOf(e.assetBundle.value, f)
    ensures FromAssetOrBundle(e, f) == FieldOf(e.assetBundle.value, f)
            <==> FieldOf(e.asset.value, f).Undefined?
  {
  }

  function AssetName(e: RawEvent): Js<string> { FromAssetOrBundle(e, Name) }

  function MarketplaceLink(e: RawEvent): Js<string> { FromAssetOrBundle(e, Permalink) }

  /** `_.get(event, ['asset', 'image_url'])`: no bundle fallback for the image. */
  function ImageUrl(e: RawEvent): (r: Js<string>)
    ensures e.asset.Defined? ==> r == e.asset.value.imageUrl
    ensures !e.asset.Defined? ==> r == Undefined
  {
    Get(e.asset, (a: Asset) => a.imageUrl)
  }

  /** `_.get(event, ['winner_account', 'address'])` */
  function WinnerAddress(e: RawEvent): Js<string> {
    Get(e.winnerAccount, (a: Account) => a.address)
  }

  /** `_.get(event, ['winner_account', 'user', 'username'])` */
  function WinnerUsername(e: RawEvent): Js<string> {
    Get(Get(e.winnerAccount, (a: Account) => a.user), (u: User) => u.username)
  }

  const UsernameLimit: nat := 15
  const AddressPrefixLength: nat := 6
  const Ellipsis := "..."

  /** A username longer than the limit is cut to the limit and marked with an
      ellipsis; a shorter one is kept as it is. */
  function ShortenUsername(name: string): (r: string)
    ensures |name| <= UsernameLimit ==> r == name
    ensures |name| > UsernameLimit ==> |r| == UsernameLimit + |Ellipsis|
    ensures |name| > UsernameLimit ==> r[..UsernameLimit] == name[..UsernameLimit]
    ensures |name| > UsernameLimit ==> r[UsernameLimit..] == Ellipsis
  {
    if |name| > UsernameLimit then name[..UsernameLimit] + Ellipsis else name
  }

  /** The captor shown for a sale. `None` stands for the TypeError thrown when
      the winner's address is not a string: the address is sliced before the
      username is even looked at, so that happens whatever the username is.
      The loose `!= null` test sends both `null` and `undefined` usernames to
      the address branch. */
  function BuyerDisplay(e: RawEvent): (r: Option<string>)
    ensures r.None? <==> !WinnerAddress(e).Defined?
    ensures r.Some? && WinnerUsername(e).Defined? ==>
              r.value == ShortenUsername(WinnerUsername(e).value)
    ensures r.Some? && !WinnerUsername(e).Defined? ==>
              && r.value <= WinnerAddress(e).value
              && |r.value| == if |WinnerAddress(e).value| < AddressPrefixLength
                              then |WinnerAddress(e).value| else AddressPrefixLength
  {
    match WinnerAddress(e)
    case Defined(address) =>
      var buyerAddr := Prefix(address, AddressPrefixLength);
      (match WinnerUsername(e)
       case Defined(name) => Some(ShortenUsername(name))
       case _ => Some(buyerAddr))
    case _ => None
  }

  /** A long username is shown as its first fifteen characters and `...`,
      eighteen characters in all. */
  lemma LongUsernameDisplay(e: RawEvent)
    requires WinnerAddress(e).Defined? && WinnerUsername(e).Defined?
    requires |WinnerUsername(e).value| > UsernameLimit
    ensures BuyerDisplay(e) == Some(WinnerUsername(e).value[..15] + "...")
    ensures |BuyerDisplay(e).value| == 18
  {
  }

  /** The code promises no non-empty display: an empty username becomes the
      empty captor text. */
  lemma EmptyUsernameGivesEmptyCaptor(address: string)
    ensures BuyerDisplay(RawEvent(Undefined, Undefined,
              Defined(Account(Defined(address), Defined(User(Defined(""))))), 0))
            == Some("")
  {
  }

  const TitleSuffix := " CAPTURED!"

  /** `assetName.toUpperCase() + ' CAPTURED!'`. The case mapping is left to
      the caller; `None` stands for the TypeError thrown when the name is not
      a string. */
  function Title(name: Js<string>, upcase: string -> string): (r: Option<string>)
    ensures r.Some? <==> name.Defined?
    ensures r.Some? ==> |r.value| == |upcase(name.value)| + |TitleSuffix|
    ensures r.Some? ==> r.value[..|upcase(name.value)|] == upcase(name.value)
    ensures r.Some? ==> r.value[|upcase(name.value)|..] == TitleSuffix
  {
    match name
    case Defined(n) => Some(upcase(n) + TitleSuffix)
    case _ => None
  }

  const DescriptionLead := "The federally wanted individual known as "
  const DescriptionCaptor := " was captured by "
  const DescriptionBounty := " for a bounty of "
  const DescriptionUnit := " ETH"

  /** The description template. The name is printed as a template literal
      prints it, so a missing name reads `undefined` or `null`; the bounty is
      the already formatted price text. */
  function Description(name: Js<string>, buyer: string, bounty: string): string {
    DescriptionLead + TemplateText(name) + DescriptionCaptor + buyer
      + DescriptionBounty + bounty + DescriptionUnit
  }

  /** `x + y` splits back into `x` and `y` at `|x|`. */
  lemma SplitConcat(x: string, y: string)
    ensures (x + y)[..|x|] == x && (x + y)[|x|..] == y
  {
  }

  /** Each substituted value of the description can be read back at the
      offset the fixed template parts before it determine. */
  lemma DescriptionParts(name: Js<string>, buyer: string, bounty: string)
    ensures var r := Description(name, buyer, bounty);
            var n := |DescriptionLead| + |TemplateText(name)|;
            var b := n + |DescriptionCaptor| + |buyer|;
            var p := b + |DescriptionBounty| + |bounty|;
            && |r| == p + |DescriptionUnit|
            && r[..|DescriptionLead|] == DescriptionLead
            && r[|DescriptionLead|..n] == TemplateText(name)
            && r[n..n + |DescriptionCaptor|] == DescriptionCaptor
            && r[n + |DescriptionCaptor|..b] == buyer
            && r[b..b + |DescriptionBounty|] == DescriptionBounty
            && r[b + |DescriptionBounty|..p] == bounty
            && r[p..] == DescriptionUnit
  {
    var t := TemplateText(name);
    var s1 := DescriptionLead + t;
    var s2 := s1 + DescriptionCaptor;
    var s3 := s2 + buyer;
    var s4 := s3 + DescriptionBounty;
    var s5 := s4 + bounty;
    var r := s5 + DescriptionUnit;
    assert r == Description(name, buyer, bounty);
    SplitConcat(s5, DescriptionUnit);
    SplitConcat(s4, bounty);
    SplitConcat(s3, DescriptionBounty);
    SplitConcat(s2, buyer);
    SplitConcat(s1, DescriptionCaptor);
    SplitConcat(DescriptionLead, t);
    assert r[..|s5|] == s5;
    assert r[..|s4|] == s4 by { assert r[..|s4|] == s5[..|s4|]; }
    assert r[..|s3|] == s3 by { assert r[..|s3|] == s4[..|s3|]; }
    assert r[..|s2|] == s2 by { assert r[..|s2|] == s3[..|s2|]; }
    assert r[..|s1|] == s1 by { assert r[..|s1|] == s2[..|s1|]; }
  }

  /** What `formatAndSendEmbed` hands to the embed builder, apart from the
      fixed colour, author and footer and the price fields. */
  datatype Notice = Notice(
    title: string,
    description: string,
    link: Js<string>,
    image: Js<string>,
    captor: string)

  /** The notice for one event. `bounty` is the printed ETH price, or `None`
      when `formatUnits` threw on the event's price fields. The notice is
      built exactly when none of the address slice, the price formatting and
      the upper-casing of the name throws. */
  function Render(e: RawEvent, bounty: Option<string>, upcase: string -> string): (r: Option<Notice>)
    ensures r.Some? <==> WinnerAddress(e).Defined? && bounty.Some? && AssetName(e).Defined?
    ensures r.Some? ==> && Some(r.value.captor) == BuyerDisplay(e)
                        && Some(r.value.title) == Title(AssetName(e), upcase)
                        && r.value.description == Description(AssetName(e), r.value.captor, bounty.value)
                        && r.value.link == MarketplaceLink(e)
                        && r.value.image == ImageUrl(e)
  {
    match BuyerDisplay(e)
    case None => None
    case Some(captor) =>
      match bounty
      case None => None
      case Some(price) =>
        match Title(AssetName(e), upcase)
        case None => None
        case Some(title) =>
          Some(Notice(title, Description(AssetName(e), captor, price),
                      MarketplaceLink(e), ImageUrl(e), captor))
  }
}
