/** What each reservation operation refuses and writes, and what each event does to the orders themselves. */
module OperationLois {
  import opened Commun
  import opened Reservation
  import opened ReservationLois
  import opened Commandes

  predicate SansResa(s: Marche, c: nat) { forall i :: 0 <= i < |s.resas| ==> s.resas[i].commande != c }

  /** A publication's stock and status, and nothing else of it. */
  ghost predicate PublicationSeule(s: Marche, s': Marche, p: nat, disponible: real, statut: StatutPublication) {
    p < |s.publications| && s'.publications == s.publications[p := s.publications[p].(disponible := disponible, statut := statut)]
  }

  /** A harvest sells q: down to nothing available, and marked sold when nothing is left. */
  ghost predicate RecolteVendue(rs: seq<Recolte>, rs': seq<Recolte>, r: Option<nat>, q: real) {
    if r.None? || r.value >= |rs| then rs' == rs
    else
      var x := rs[r.value];
      var reste := if x.disponible < q then 0.0 else x.disponible - q;
      rs' == rs[r.value := Recolte(reste, x.vendu + q, x.vendue || reste == 0.0)]
  }

  /** A reservation is for a new order and a positive quantity; it is refused exactly without the publication or enough of it. */
  lemma ReserverExact(s: Marche, c: nat, p: Option<nat>, q: real)
    ensures var (s', refus) := Reserver(s, c, p, q);
      var agit := p.Some? && q > 0.0 && SansResa(s, c);
      && (refus == Some(PublicationIntrouvable) <==> agit && p.value >= |s.publications|)
      && (refus == Some(StockInsuffisant) <==> agit && p.value < |s.publications| && s.publications[p.value].disponible < q)
      && (refus == Some(RecolteIntrouvable) <==> false)
      && (if agit && p.value < |s.publications| && q <= s.publications[p.value].disponible then
            && PublicationSeule(s, s', p.value, s.publications[p.value].disponible - q, s.publications[p.value].statut)
            && s'.recoltes == s.recoltes && s'.resas == s.resas + [Resa(c, p, None, q, Active)]
          else s' == s)
  {
  }

  /** A direct sale of a harvest is for a new order; it is refused exactly without the harvest. */
  lemma VenteDirecteExacte(s: Marche, c: nat, r: Option<nat>, q: real)
    ensures var (s', refus) := ConvertirRecolteDirecte(s, c, r, q);
      var agit := r.Some? && q > 0.0 && SansResa(s, c);
      && (if agit && r.value >= |s.recoltes| then refus == Some(RecolteIntrouvable) else refus == None)
      && (if agit && r.value < |s.recoltes| then
            s'.publications == s.publications && RecolteVendue(s.recoltes, s'.recoltes, r, q) && s'.resas == s.resas + [Resa(c, None, r, q, Convertie)]
          else s' == s)
  {
  }

  /** A conversion without a row takes from the publication; of an active row it takes nothing more; it is for nothing otherwise. */
  lemma ConvertirExact(s: Marche, c: nat, p: nat, q: real, i: nat)
    requires Saine(s)
    ensures p >= |s.publications| ==> Convertir(s, c, Some(p), q) == s
    ensures Convertir(s, c, None, q) == s
    ensures var s' := Convertir(s, c, Some(p), q);
      SansResa(s, c) && p < |s.publications| ==>
        if q <= 0.0 then s' == s
        else
          var d := if s.publications[p].disponible < q then 0.0 else s.publications[p].disponible - q;
          && PublicationSeule(s, s', p, d, if d == 0.0 && s.publications[p].statut == Disponible then Epuise else s.publications[p].statut)
          && RecolteVendue(s.recoltes, s'.recoltes, s.publications[p].recolte, q)
          && s'.resas == s.resas + [Resa(c, Some(p), None, q, Convertie)]
    ensures var s' := Convertir(s, c, Some(p), q);
      i < |s.resas| && s.resas[i].commande == c && p < |s.publications| ==>
        if s.resas[i].statut != Active then s' == s
        else
          var d := s.publications[p].disponible;
          && PublicationSeule(s, s', p, d, if d == 0.0 && s.publications[p].statut == Disponible then Epuise else s.publications[p].statut)
          && RecolteVendue(s.recoltes, s'.recoltes, s.publications[p].recolte, q)
          && s'.resas == s.resas[i := s.resas[i].(statut := Convertie)]
  {
    if i < |s.resas| && s.resas[i].commande == c { LigneStable(s.resas, i, c); }
  }

  /** A release gives an active row's quantity back to its publication; it is for nothing otherwise. */
  lemma LibererExact(s: Marche, c: nat, i: nat)
    requires Saine(s)
    ensures SansResa(s, c) ==> Liberer(s, c) == s
    ensures var s' := Liberer(s, c);
      i < |s.resas| && s.resas[i].commande == c ==>
        if s.resas[i].statut != Active then s' == s
        else
          var p := s.resas[i].publication;
          && p.Some? && p.value < |s.publications|
          && PublicationSeule(s, s', p.value, s.publications[p.value].disponible + s.resas[i].quantite, s.publications[p.value].statut)
          && s'.recoltes == s.recoltes && s'.resas == s.resas[i := s.resas[i].(statut := Liberee)]
  {
    if i < |s.resas| && s.resas[i].commande == c { LigneStable(s.resas, i, c); }
  }

  // ── Orders ──────────────────────────────────────────────────────────────

  /** The publication is there and has that much. */
  predicate Assez(m: Marche, p: nat, q: real) { p < |m.publications| && q <= m.publications[p].disponible }

  /**
   An order is created exactly with a positive quantity and, when it waits, enough of its publication, or, when it is
   confirmed on a harvest alone, that harvest. Refused, nothing at all moves.
   */
  lemma CreerExact(pl: Place, p: Option<nat>, r: Option<nat>, q: real, st: StatutCommande)
    requires Fidele(pl)
    ensures var pl' := EtapePlace(pl, Creer(p, r, q, st));
      if q > 0.0 && (p.Some? && st == EnAttente ==> Assez(pl.m, p.value, q))
         && (p.None? && r.Some? && st == Confirmee ==> r.value < |pl.m.recoltes|)
      then pl'.commandes == pl.commandes + [Commande(p, r, q, st)] else pl' == pl
  {
    SansLigne(pl, |pl.commandes|);
  }

  /** A negotiation accepted is a confirmed order, exactly when there is enough for it. */
  lemma AccepterExact(pl: Place, p: Option<nat>, q: real)
    requires Fidele(pl)
    ensures var pl' := EtapePlace(pl, Accepter(p, q));
      if p.Some? && q > 0.0 ==> Assez(pl.m, p.value, q)
      then pl'.commandes == pl.commandes + [Commande(p, None, q, Confirmee)] else pl' == pl
  {
    SansLigne(pl, |pl.commandes|);
  }

  /** A change of status writes that status and no other, unless the order confirmed is on a harvest that is not there. */
  lemma MajExact(pl: Place, id: nat, st: StatutCommande)
    requires Fidele(pl) && id < |pl.commandes|
    ensures var pl', c := EtapePlace(pl, Maj(id, st)), pl.commandes[id];
      if st == Confirmee && c.statut != Confirmee && c.publication.None? && c.recolte.Some? && c.quantite > 0.0 && SansResa(pl.m, id)
         && c.recolte.value >= |pl.m.recoltes|
      then pl' == pl else pl'.commandes == pl.commandes[id := c.(statut := st)]
    ensures EtapePlace(pl, Livrer(id)) == pl.(commandes := pl.commandes[id := pl.commandes[id].(statut := Livree)])
  {
  }

  // ── When the market moves ───────────────────────────────────────────────

  /** The operations an event asks for, said from the order's own columns: confirmed, cancelled, or neither. */
  lemma MarcheApres(pl: Place, id: nat, st: StatutCommande)
    requires Fidele(pl) && id < |pl.commandes|
    ensures var m, c := EtapePlace(pl, Maj(id, st)).m, pl.commandes[id];
      && (st == Confirmee && c.statut != Confirmee && c.publication.Some? ==> m == Convertir(pl.m, id, c.publication, c.quantite))
      && (st == Confirmee && c.statut != Confirmee && c.publication.None? && c.recolte.Some? ==>
            m == ConvertirRecolteDirecte(pl.m, id, c.recolte, c.quantite).0)
      && (st == CommandeAnnulee && c.statut != CommandeAnnulee ==> m == Liberer(pl.m, id))
      && (st == c.statut || st !in {Confirmee, CommandeAnnulee} || (st == Confirmee && c.publication.None? && c.recolte.None?) ==> m == pl.m)
  {
    var appels := Appels(pl, Maj(id, st));
    if appels != [] { DeuxAppels(pl.m, appels[0], appels[0]); }
  }

  /** The same for a creation: reserved, sold at once, or neither. An acceptance does both in turn. */
  lemma MarcheCree(pl: Place, p: Option<nat>, r: Option<nat>, q: real, st: StatutCommande)
    requires Fidele(pl)
    ensures var m, n := EtapePlace(pl, Creer(p, r, q, st)).m, |pl.commandes|;
      && (q <= 0.0 ==> m == pl.m)
      && (q > 0.0 && p.Some? && st == EnAttente ==> m == Reserver(pl.m, n, p, q).0)
      && (q > 0.0 && p.Some? && st == Confirmee ==> m == Convertir(pl.m, n, p, q))
      && (q > 0.0 && p.None? && r.Some? && st == Confirmee ==> m == ConvertirRecolteDirecte(pl.m, n, r, q).0)
      && ((p.None? && st != Confirmee) || (p.None? && r.None?) || st !in {EnAttente, Confirmee} ==> m == pl.m)
  {
    var appels := Appels(pl, Creer(p, r, q, st));
    if appels != [] { DeuxAppels(pl.m, appels[0], appels[0]); }
    SansLigne(pl, |pl.commandes|);
  }

  lemma MarcheAccepte(pl: Place, p: Option<nat>, q: real)
    requires Fidele(pl)
    ensures var m, n := EtapePlace(pl, Accepter(p, q)).m, |pl.commandes|;
      m == if p.None? then pl.m else if Reserver(pl.m, n, p, q).1.Some? then pl.m else Convertir(Reserver(pl.m, n, p, q).0, n, p, q)
  {
    DeuxAppels(pl.m, OReserver(|pl.commandes|, p, q), OConvertir(|pl.commandes|, p, q));
  }
}
