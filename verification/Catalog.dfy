/** The catalog as it is authored, and the price book it compiles to. */
module Catalog {
  import opened Outcomes
  import opened MenuGraph

  type ItemId = nat
  type GroupId = nat
  type CourseId = nat
  type U16 = n: nat | n <= 65535

  datatype SalesChannel = Unspecified | DineIn | Takeaway | Delivery | Qr | Api

  /** A channel as it was written: one this build knows, or the token of one it does not. */
  datatype OpenChannel = Known(channel: SalesChannel) | Unrecognised(token: string)

  /** The channels a sale is made on, in the order of their wire tokens. */
  const CHANNELS := [Api, Delivery, DineIn, Qr, Takeaway]

  /** The channel an authored row is for, if a sale is made on it. */
  function Sellable(channel: OpenChannel): Option<SalesChannel> {
    if channel.Known? && channel.channel != Unspecified then Some(channel.channel) else None
  }

  lemma SellableChannels(channel: SalesChannel)
    ensures channel in CHANNELS <==> channel != Unspecified
  {
    assert CHANNELS[0] == Api && CHANNELS[1] == Delivery && CHANNELS[2] == DineIn;
    assert CHANNELS[3] == Qr && CHANNELS[4] == Takeaway;
  }

  datatype Money = Money(currency: string, amount: int)

  // --- Authoring ------------------------------------------------------------------------------------

  datatype Item = Item(id: ItemId, name: string, translations: map<string, string>, taxClass: nat,
                       course: Option<CourseId>, archived: bool)

  datatype ChannelPrice = ChannelPrice(channel: OpenChannel, price: Money)

  datatype Placement = Placement(menu: MenuId, item: ItemId, prices: seq<ChannelPrice>, available: bool)

  /** What a modifier group asks: how many of which items. */
  datatype Rule = Rule(name: string, minSelect: U16, maxSelect: U16, members: seq<ItemId>)

  datatype Group = Group(id: GroupId, rule: Rule, attached: seq<ItemId>, archived: bool)

  datatype Course = Course(id: CourseId, name: string, sort: int, archived: bool)

  datatype Authoring = Authoring(items: seq<Item>, menus: seq<Menu>, placements: seq<Placement>,
                                 groups: seq<Group>, courses: seq<Course>)

  // --- The compiled book ------------------------------------------------------------------------------

  datatype Entry = Entry(item: ItemId, name: string, translations: map<string, string>, price: Money,
                         taxClass: nat, available: bool, groups: seq<GroupId>, course: Option<CourseId>)

  datatype MenuGroup = MenuGroup(id: GroupId, rule: Rule)

  datatype MenuCourse = MenuCourse(id: CourseId, name: string, sort: int)

  datatype ChannelCatalog = ChannelCatalog(entries: seq<Entry>, groups: seq<MenuGroup>, courses: seq<MenuCourse>)

  /** The channels that sell anything, each with its catalog. */
  type Book = seq<(SalesChannel, ChannelCatalog)>
}
