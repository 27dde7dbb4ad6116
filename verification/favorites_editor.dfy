/**
 * The favourites editor: a list of favourite things, each under a category with an
 * icon, and the `showFavorites` flag. Ten preset categories name their icons.
 */
module FavoritesEditor {
  import opened Wrappers
  import opened Content
  import Collections

  /** A preset category: its name, the icon name stored with a favourite, and the icon component drawn. */
  datatype Preset = Preset(name: string, icon: string, component: string)

  const Presets: seq<Preset> := [
    Preset("Music", "Music", "Music"),
    Preset("Books", "Book", "Book"),
    Preset("Movies", "Camera", "Camera"),
    Preset("Hobbies", "Heart", "Heart"),
    Preset("Food", "Coffee", "Coffee"),
    Preset("Travel", "Plane", "Plane"),
    Preset("Art", "Palette", "Palette"),
    Preset("Sports", "Trophy", "Trophy"),
    Preset("Quotes", "Sparkles", "Sparkles"),
    Preset("Other", "Star", "Star")]

  /** The icon drawn when no preset matches. */
  const FallbackIcon := "Star"

  /** No two presets share a name or an icon name, so a lookup by either finds one preset. */
  lemma PresetsDistinct()
    ensures forall i, j :: 0 <= i < j < |Presets| ==> Presets[i].name != Presets[j].name
    ensures forall i, j :: 0 <= i < j < |Presets| ==> Presets[i].icon != Presets[j].icon
  {
  }

  /** The add form's fields. */
  datatype FavoriteForm = FavoriteForm(category: string, icon: string, content: string)

  /** The object handed to `onChange`. */
  datatype FavoritesSection = FavoritesSection(favorites: seq<Favorite>, showFavorites: Option<bool>)

  /** `favorites || []`. */
  function Items(favorites: Option<seq<Favorite>>): seq<Favorite> {
    favorites.GetOr([])
  }

  predicate HasIcon(p: Preset, iconName: string) {
    p.icon == iconName
  }

  predicate HasName(p: Preset, name: string) {
    p.name == name
  }

  function IconIs(iconName: string): Preset -> bool {
    (p: Preset) => HasIcon(p, iconName)
  }

  function NameIs(name: string): Preset -> bool {
    (p: Preset) => HasName(p, name)
  }

  /** `getIconComponent`: the component of the first preset with this icon name, Star for any other name. */
  function IconComponent(iconName: string): (c: string)
    ensures (forall k :: 0 <= k < |Presets| ==> Presets[k].icon != iconName) ==> c == FallbackIcon
    ensures forall k :: 0 <= k < |Presets| && Presets[k].icon == iconName ==> c == Presets[k].component
  {
    PresetsDistinct();
    match Collections.First(Presets, IconIs(iconName))
    case Some(k) => Presets[k].component
    case None => FallbackIcon
  }

  /** `handleCategoryChange`: the category is set and the icon is the preset's, or Star when the name is not a preset. */
  function ChangeCategory(form: FavoriteForm, categoryName: string): (r: FavoriteForm)
    ensures r.content == form.content && r.category == categoryName
    ensures (forall k :: 0 <= k < |Presets| ==> Presets[k].name != categoryName) ==> r.icon == FallbackIcon
    ensures forall k :: 0 <= k < |Presets| && Presets[k].name == categoryName ==> r.icon == Presets[k].icon
  {
    PresetsDistinct();
    var icon := match Collections.First(Presets, NameIs(categoryName))
      case Some(k) => Presets[k].icon
      case None => FallbackIcon;
    form.(category := categoryName, icon := icon)
  }

  /** Every preset's icon name draws that preset's own component, so a chosen category shows its icon. */
  lemma PresetIconsRoundTrip(form: FavoriteForm, k: nat)
    requires k < |Presets|
    ensures IconComponent(ChangeCategory(form, Presets[k].name).icon) == Presets[k].component
  {
    assert forall j :: 0 <= j < |Presets| ==> Presets[j].component == Presets[j].icon;
  }

  /** `handleAddFavorite`: refused unless category and content are filled in; otherwise appended with the next order. */
  function AddFavorite(favorites: Option<seq<Favorite>>, showFavorites: Option<bool>, form: FavoriteForm): (r: Edit<FavoritesSection>)
    ensures r.Refused? <==> form.category == "" || form.content == ""
    ensures r.Refused? ==> r.message == "Please select a category and add content"
    ensures r.Changed? ==>
              var before := Items(favorites);
              && r.value.showFavorites == showFavorites
              && |r.value.favorites| == |before| + 1 && r.value.favorites[..|before|] == before
              && r.value.favorites[|before|] == Favorite(form.category, form.icon, form.content, |before|)
  {
    if form.category == "" || form.content == "" then Refused("Please select a category and add content")
    else
      var items := Items(favorites);
      Changed(FavoritesSection(items + [Favorite(form.category, form.icon, form.content, |items|)], showFavorites))
  }

  /** `handleRemoveFavorite`: the favourite at `index` is dropped, the others keep their order. */
  function RemoveFavorite(favorites: Option<seq<Favorite>>, showFavorites: Option<bool>, index: int): (r: FavoritesSection)
    ensures r.showFavorites == showFavorites
    ensures 0 <= index < |Items(favorites)| ==> r.favorites == Items(favorites)[..index] + Items(favorites)[index + 1..]
    ensures !(0 <= index < |Items(favorites)|) ==> r.favorites == Items(favorites)
  {
    FavoritesSection(Collections.RemoveAt(Items(favorites), index), showFavorites)
  }

  /** Removing the favourite just added gives back the list it was added to. */
  lemma RemoveUndoesAdd(favorites: Option<seq<Favorite>>, showFavorites: Option<bool>, form: FavoriteForm)
    requires AddFavorite(favorites, showFavorites, form).Changed?
    ensures var added := AddFavorite(favorites, showFavorites, form).value;
            RemoveFavorite(Some(added.favorites), added.showFavorites, |Items(favorites)|)
              == FavoritesSection(Items(favorites), showFavorites)
  {
    var added := AddFavorite(favorites, showFavorites, form).value;
    assert added.favorites[..|Items(favorites)|] == Items(favorites);
  }

  /** `handleToggleFavorites`: the flag becomes `!showFavorites`; the items are passed on unchanged. */
  function ToggleFavorites(favorites: Option<seq<Favorite>>, showFavorites: Option<bool>): (r: FavoritesSection)
    ensures r.favorites == Items(favorites)
    ensures r.showFavorites == Some(showFavorites != Some(true))
  {
    FavoritesSection(Items(favorites), Some(Negate(showFavorites)))
  }
}
