/** The records the application stores and the fixed enumerations of
    clothing categories, occasions and seasons (types.ts). */
module Types {
  import opened Wrappers
  import Seqs

  datatype Category = Shirt | Pants | Dress | Shoes | Jacket | Accessories | Skirt | Outerwear | Other
  datatype Occasion = Casual | Formal | Athletic | Business | Party | Wedding | Date | Gym
  datatype Season = Spring | Summer | Fall | Winter | AllSeason
  /** The author of a chat message: exactly two kinds. */
  datatype Role = User | Assistant

  /** The string a category is stored and searched as. */
  function CategoryName(c: Category): string
  {
    match c
    case Shirt => "shirt"
    case Pants => "pants"
    case Dress => "dress"
    case Shoes => "shoes"
    case Jacket => "jacket"
    case Accessories => "accessories"
    case Skirt => "skirt"
    case Outerwear => "outerwear"
    case Other => "other"
  }

  /** Photos are opaque data-URL strings. Brand, size and purchase date are
      the only optional fields. */
  datatype ClothingItem = ClothingItem(
    id: string,
    photo: string,
    category: Category,
    colors: seq<string>,
    occasions: seq<Occasion>,
    seasons: seq<Season>,
    brand: Option<string>,
    size: Option<string>,
    purchaseDate: Option<string>,
    createdAt: int)

  /** `itemIds` refer to closet items by id and may dangle. */
  datatype OutfitSuggestion = OutfitSuggestion(
    name: string,
    description: string,
    itemIds: seq<string>,
    stylingTips: string)

  /** The outfit is held by value: a snapshot, not a reference. */
  datatype ScheduledOutfit = ScheduledOutfit(
    id: string,
    outfit: OutfitSuggestion,
    date: string,
    createdAt: int)

  datatype ChatMessage = ChatMessage(
    id: string,
    role: Role,
    content: string,
    outfits: Option<seq<OutfitSuggestion>>,
    timestamp: int)

  datatype Conversation = Conversation(
    id: string,
    title: string,
    messages: seq<ChatMessage>,
    lastUpdatedAt: int)

  // The in-line key of each record kind (the object stores' key path "id").
  function ItemKey(i: ClothingItem): string { i.id }
  function ConversationKey(c: Conversation): string { c.id }
  function ScheduleKey(s: ScheduledOutfit): string { s.id }

  // The display-order keys.
  function CreatedAt(i: ClothingItem): int { i.createdAt }
  function LastUpdatedAt(c: Conversation): int { c.lastUpdatedAt }

  /** CATEGORIES: every category once; skirt comes before accessories here,
      unlike in the type's declaration. */
  function Categories(): (cs: seq<Category>)
    ensures |cs| == 9
    ensures forall c: Category :: c in cs
    ensures Seqs.NoDuplicates(cs)
  {
    var cs := [Shirt, Pants, Dress, Shoes, Jacket, Skirt, Accessories, Outerwear, Other];
    assert forall c: Category :: c in cs by {
      forall c: Category ensures c in cs {
        if c.Shirt? {
          assert cs[0] == c;
        } else if c.Pants? {
          assert cs[1] == c;
        } else if c.Dress? {
          assert cs[2] == c;
        } else if c.Shoes? {
          assert cs[3] == c;
        } else if c.Jacket? {
          assert cs[4] == c;
        } else if c.Skirt? {
          assert cs[5] == c;
        } else if c.Accessories? {
          assert cs[6] == c;
        } else if c.Outerwear? {
          assert cs[7] == c;
        } else {
          assert cs[8] == c;
        }
      }
    }
    cs
  }

  /** OCCASIONS: every occasion once. */
  function Occasions(): (os: seq<Occasion>)
    ensures |os| == 8
    ensures forall o: Occasion :: o in os
    ensures Seqs.NoDuplicates(os)
  {
    var os := [Casual, Formal, Athletic, Business, Party, Wedding, Date, Gym];
    assert forall o: Occasion :: o in os by {
      forall o: Occasion ensures o in os {
        if o.Casual? {
          assert os[0] == o;
        } else if o.Formal? {
          assert os[1] == o;
        } else if o.Athletic? {
          assert os[2] == o;
        } else if o.Business? {
          assert os[3] == o;
        } else if o.Party? {
          assert os[4] == o;
        } else if o.Wedding? {
          assert os[5] == o;
        } else if o.Date? {
          assert os[6] == o;
        } else {
          assert os[7] == o;
        }
      }
    }
    os
  }

  /** SEASONS: every season once. */
  function Seasons(): (ss: seq<Season>)
    ensures |ss| == 5
    ensures forall s: Season :: s in ss
    ensures Seqs.NoDuplicates(ss)
  {
    var ss := [Spring, Summer, Fall, Winter, AllSeason];
    assert forall s: Season :: s in ss by {
      forall s: Season ensures s in ss {
        if s.Spring? {
          assert ss[0] == s;
        } else if s.Summer? {
          assert ss[1] == s;
        } else if s.Fall? {
          assert ss[2] == s;
        } else if s.Winter? {
          assert ss[3] == s;
        } else {
          assert ss[4] == s;
        }
      }
    }
    ss
  }
}
