/**
 * The handler's `forEach` over the whitelist, step by step, is the single record change
 * `Merged`: each whitelisted field is written exactly once and in isolation.
 */
module PatchMerge {
  import opened Wrappers
  import opened Content
  import opened Memorials
  import opened MemorialPatch

  /** Visiting all fourteen whitelisted fields, one at a time, is the single record change `Merged`. */
  lemma UpdateIsMerge(m: Memorial, p: Patch)
    ensures |AllowedUpdates| == 14 && Visited(m, p, 14) == Merged(m, p)
  {
    Visit1(m, p);
    Visit2(m, p);
    Visit3(m, p);
    Visit4(m, p);
    Visit5(m, p);
    Visit6(m, p);
    Visit7(m, p);
    Visit8(m, p);
    Visit9(m, p);
    Visit10(m, p);
    Visit11(m, p);
    Visit12(m, p);
    Visit13(m, p);
    Visit14(m, p);
  }

  /** Visiting field 1 of the whitelist writes that field alone. */
  lemma Visit1(m: Memorial, p: Patch)
    ensures Visited(m, p, 1) == m.(fullName := p.fullName.GetOr(m.fullName))
  {
  }

  /** Visiting field 2 of the whitelist writes that field alone. */
  lemma Visit2(m: Memorial, p: Patch)
    ensures Visited(m, p, 2) == Visited(m, p, 1).(birthDate := p.birthDate.GetOr(Visited(m, p, 1).birthDate))
  {
  }

  /** Visiting field 3 of the whitelist writes that field alone. */
  lemma Visit3(m: Memorial, p: Patch)
    ensures Visited(m, p, 3) == Visited(m, p, 2).(deathDate := p.deathDate.GetOr(Visited(m, p, 2).deathDate))
  {
  }

  /** Visiting field 4 of the whitelist writes that field alone. */
  lemma Visit4(m: Memorial, p: Patch)
    ensures Visited(m, p, 4) == Visited(m, p, 3).(biography := Visited(m, p, 3).biography.(content := p.biography.GetOr(Visited(m, p, 3).biography.content)))
  {
  }

  /** Visiting field 5 of the whitelist writes that field alone. */
  lemma Visit5(m: Memorial, p: Patch)
    ensures Visited(m, p, 5) == Visited(m, p, 4).(profilePhoto := p.profilePhoto.GetOr(Visited(m, p, 4).profilePhoto))
  {
  }

  /** Visiting field 6 of the whitelist writes that field alone. */
  lemma Visit6(m: Memorial, p: Patch)
    ensures Visited(m, p, 6) == Visited(m, p, 5).(coverPhoto := p.coverPhoto.GetOr(Visited(m, p, 5).coverPhoto))
  {
  }

  /** Visiting field 7 of the whitelist writes that field alone. */
  lemma Visit7(m: Memorial, p: Patch)
    ensures Visited(m, p, 7) == Visited(m, p, 6).(showDates := p.showDates.GetOr(Visited(m, p, 6).showDates))
  {
  }

  /** Visiting field 8 of the whitelist writes that field alone. */
  lemma Visit8(m: Memorial, p: Patch)
    ensures Visited(m, p, 8) == Visited(m, p, 7).(status := UpdatedStatus(p.status, Visited(m, p, 7).status))
  {
  }

  /** Visiting field 9 of the whitelist writes that field alone. */
  lemma Visit9(m: Memorial, p: Patch)
    ensures Visited(m, p, 9) == Visited(m, p, 8).(gallery := p.gallery.GetOr(Visited(m, p, 8).gallery))
  {
  }

  /** Visiting field 10 of the whitelist writes that field alone. */
  lemma Visit10(m: Memorial, p: Patch)
    ensures Visited(m, p, 10) == Visited(m, p, 9).(timeline := UpdatedTimeline(p.timeline, Visited(m, p, 9).timeline))
  {
  }

  /** Visiting field 11 of the whitelist writes that field alone. */
  lemma Visit11(m: Memorial, p: Patch)
    ensures Visited(m, p, 11) == Visited(m, p, 10).(familyMembers := p.familyMembers.GetOr(Visited(m, p, 10).familyMembers))
  {
  }

  /** Visiting field 12 of the whitelist writes that field alone. */
  lemma Visit12(m: Memorial, p: Patch)
    ensures Visited(m, p, 12) == Visited(m, p, 11).(showFamily := p.showFamily.GetOr(Visited(m, p, 11).showFamily))
  {
  }

  /** Visiting field 13 of the whitelist writes that field alone. */
  lemma Visit13(m: Memorial, p: Patch)
    ensures Visited(m, p, 13) == Visited(m, p, 12).(favorites := p.favorites.GetOr(Visited(m, p, 12).favorites))
  {
  }

  /** Visiting field 14 of the whitelist writes that field alone. */
  lemma Visit14(m: Memorial, p: Patch)
    ensures Visited(m, p, 14) == Visited(m, p, 13).(showFavorites := p.showFavorites.GetOr(Visited(m, p, 13).showFavorites))
  {
  }

}
