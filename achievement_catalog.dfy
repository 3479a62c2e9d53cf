/** The fixed catalog of achievement definitions and the lookups the
    achievements page makes into it: by id, and from a definition's rarity and
    icon names to the style and icon shown. */
module AchievementCatalog {
  import opened RecordStore

  /** One catalog entry; `rarity` and `icon` are the names the page looks up. */
  datatype Achievement = Achievement(
    id: string,
    title: string,
    description: string,
    icon: string,
    requirement: int,
    category: string,
    rarity: string,
    points: int)

  const FirstLoginId: string := "first-login"
  const ProfileCompleteId: string := "profile-complete"
  const SettingsMasterId: string := "settings-master"

  const Catalog: seq<Achievement> := [
    Achievement(FirstLoginId, "SYSTEM ONLINE", "Complete your first login to the arcade",
                "Zap", 1, "System", "common", 10),
    Achievement(ProfileCompleteId, "IDENTITY CONFIRMED", "Fill out your complete player profile",
                "Star", 1, "Profile", "common", 25),
    Achievement(SettingsMasterId, "CONFIG WIZARD", "Customize all your game settings",
                "Target", 1, "Configuration", "rare", 50),
    Achievement("seven-day-streak", "WEEKLY WARRIOR", "Log in for 7 consecutive days",
                "Trophy", 7, "Engagement", "rare", 100),
    Achievement("achievement-hunter", "TROPHY COLLECTOR", "Unlock 10 achievements",
                "Award", 10, "Meta", "epic", 200),
    Achievement("arcade-legend", "ARCADE LEGEND", "Reach maximum level in all categories",
                "Crown", 100, "Mastery", "legendary", 500)
  ]

  /** No two entries share an id. */
  predicate DistinctIds(cat: seq<Achievement>) {
    forall i, j :: 0 <= i < j < |cat| ==> cat[i].id != cat[j].id
  }

  /** `cat.find(a => a.id === id)`: the first entry with that id, if any. */
  function FindIn(cat: seq<Achievement>, id: string): (r: Option<Achievement>)
    ensures r.Some? ==> r.value in cat && r.value.id == id
    ensures r.None? <==> forall a :: a in cat ==> a.id != id
    decreases |cat|
  {
    if cat == [] then None
    else if cat[0].id == id then Some(cat[0])
    else FindIn(cat[1..], id)
  }

  /** The catalog entry with the given id, if any. */
  function FindAchievement(id: string): Option<Achievement> {
    FindIn(Catalog, id)
  }

  /** The lookup returns the first entry with the id: the entry at the
      least index that carries it. */
  lemma {:induction false} FindFirst(cat: seq<Achievement>, id: string, i: int)
    requires 0 <= i < |cat| && cat[i].id == id
    requires forall j :: 0 <= j < i ==> cat[j].id != id
    ensures FindIn(cat, id) == Some(cat[i])
    decreases |cat|
  {
    if i > 0 {
      assert cat[0].id != id;
      assert forall j :: 0 <= j < i - 1 ==> cat[1..][j] == cat[j + 1];
      FindFirst(cat[1..], id, i - 1);
    }
  }

  /** In a catalog with distinct ids, looking an entry up by its id finds it. */
  lemma {:induction false} FindDistinct(cat: seq<Achievement>, a: Achievement)
    requires DistinctIds(cat) && a in cat
    ensures FindIn(cat, a.id) == Some(a)
    decreases |cat|
  {
    if cat[0] != a {
      assert cat[0].id != a.id by {
        var j :| 0 <= j < |cat| && cat[j] == a;
        assert j != 0;
      }
      assert a in cat[1..] by {
        var j :| 0 <= j < |cat| && cat[j] == a;
        assert cat[1..][j - 1] == a;
      }
      FindDistinct(cat[1..], a);
    }
  }

  /** No two catalog entries share an id. */
  lemma CatalogIdsDistinct()
    ensures DistinctIds(Catalog)
  {
  }

  /** The shape of the catalog: positive requirements and rewards, and
      rarity and icon names that the lookups know. */
  lemma CatalogWellFormed()
    ensures forall a :: a in Catalog ==> a.requirement >= 1 && a.points > 0
    ensures forall a :: a in Catalog ==> RarityName(ParseRarity(a.rarity)) == a.rarity
    ensures forall a :: a in Catalog ==> IconName(IconFor(a.icon)) == a.icon
  {
  }

  /** The entries the unlock pass writes are in the catalog, each with
      requirement 1. */
  lemma UnlockEntries()
    ensures FindAchievement(FirstLoginId) == Some(Catalog[0]) && Catalog[0].requirement == 1
    ensures FindAchievement(ProfileCompleteId) == Some(Catalog[1]) && Catalog[1].requirement == 1
    ensures FindAchievement(SettingsMasterId) == Some(Catalog[2]) && Catalog[2].requirement == 1
  {
    CatalogIdsDistinct();
    FindDistinct(Catalog, Catalog[0]);
    FindDistinct(Catalog, Catalog[1]);
    FindDistinct(Catalog, Catalog[2]);
  }

  datatype Rarity = Common | Rare | Epic | Legendary

  function RarityName(r: Rarity): string {
    match r
    case Common => "common"
    case Rare => "rare"
    case Epic => "epic"
    case Legendary => "legendary"
  }

  /** The style of a completed entry's icon and title. */
  function ColorOf(r: Rarity): string {
    match r
    case Common => "text-muted-foreground"
    case Rare => "text-secondary neon-cyan"
    case Epic => "text-primary neon-pink"
    case Legendary => "text-accent neon-green"
  }

  /** The style of an entry's rarity badge. */
  function BadgeOf(r: Rarity): string {
    match r
    case Common => "bg-muted text-muted-foreground"
    case Rare => "bg-secondary/20 text-secondary border-secondary"
    case Epic => "bg-primary/20 text-primary border-primary"
    case Legendary => "bg-accent/20 text-accent border-accent"
  }

  /** The rarity a name selects; an unknown name selects `common`. */
  function ParseRarity(name: string): (r: Rarity)
    ensures forall q :: RarityName(q) == name ==> r == q
    ensures (forall q :: RarityName(q) != name) ==> r == Common
  {
    if name == RarityName(Rare) then Rare
    else if name == RarityName(Epic) then Epic
    else if name == RarityName(Legendary) then Legendary
    else Common
  }

  /** `getRarityColor`: the named rarity's style, else the `common` style. */
  function RarityColor(name: string): (style: string)
    ensures forall q :: RarityName(q) == name ==> style == ColorOf(q)
    ensures (forall q :: RarityName(q) != name) ==> style == ColorOf(Common)
  {
    ColorOf(ParseRarity(name))
  }

  /** `getRarityBadge`: the named rarity's badge, else the `common` badge. */
  function RarityBadge(name: string): (style: string)
    ensures forall q :: RarityName(q) == name ==> style == BadgeOf(q)
    ensures (forall q :: RarityName(q) != name) ==> style == BadgeOf(Common)
  {
    BadgeOf(ParseRarity(name))
  }

  /** The four rarities are told apart by both styles. */
  lemma RarityStylesDistinct(p: Rarity, q: Rarity)
    ensures ColorOf(p) == ColorOf(q) ==> p == q
    ensures BadgeOf(p) == BadgeOf(q) ==> p == q
  {
  }

  datatype Icon = Zap | Star | Target | Trophy | Award | Crown

  function IconName(i: Icon): string {
    match i
    case Zap => "Zap"
    case Star => "Star"
    case Target => "Target"
    case Trophy => "Trophy"
    case Award => "Award"
    case Crown => "Crown"
  }

  /** `getIconComponent`: the named icon, else the trophy. */
  function IconFor(name: string): (i: Icon)
    ensures forall j :: IconName(j) == name ==> i == j
    ensures (forall j :: IconName(j) != name) ==> i == Trophy
  {
    if name == IconName(Zap) then Zap
    else if name == IconName(Star) then Star
    else if name == IconName(Target) then Target
    else if name == IconName(Award) then Award
    else if name == IconName(Crown) then Crown
    else Trophy
  }
}
