/** The orders that call the reservation service: create, update, negotiation acceptance (commandes-rest.controller.ts). */
module Commandes {
  import opened Commun
  import opened Reservation
  import opened ReservationLois

  datatype StatutCommande = EnAttente | Confirmee | EnLivraison | Livree | CommandeAnnulee | EnLitige

  /** Publication, harvest and quantity are set at creation; no route changes them. */
  datatype Commande = Commande(publication: Option<nat>, recolte: Option<nat>, quantite: real, statut: StatutCommande)

  datatype Place = Place(m: Marche, commandes: seq<Commande>)

  datatype Evenement =
    | Creer(publication: Option<nat>, recolte: Option<nat>, quantite: real, statut: StatutCommande)
    | Maj(id: nat, statut: StatutCommande)
    | Accepter(publication: Option<nat>, quantite: real)
    | Livrer(id: nat)

  /** What an event asks of the reservation service, in one transaction. */
  function Appels(pl: Place, e: Evenement): seq<Operation> {
    var n := |pl.commandes|;
    match e
    case Creer(p, r, q, st) =>
      if p.Some? then
        (if st == EnAttente then [OReserver(n, p, q)] else if st == Confirmee then [OConvertir(n, p, q)] else [])
      else if r.Some? && st == Confirmee then [OVenteDirecte(n, r, q)]
      else []
    case Maj(id, st) =>
      if id >= n then []
      else
        var c := pl.commandes[id];
        if st == Confirmee && c.statut != Confirmee && c.publication.Some? then [OConvertir(id, c.publication, c.quantite)]
        else if st == Confirmee && c.statut != Confirmee && c.recolte.Some? then [OVenteDirecte(id, c.recolte, c.quantite)]
        else if st == CommandeAnnulee && c.statut != CommandeAnnulee then [OLiberer(id)]
        else []
    case Accepter(p, q) => if p.Some? then [OReserver(n, p, q), OConvertir(n, p, q)] else []
    case Livrer(_) => []
  }

  /** The first call throws: the whole transaction is rolled back. */
  function RefusDe(pl: Place, e: Evenement): Option<RefusStock> {
    var appels := Appels(pl, e);
    if appels == [] then None
    else match appels[0]
      case OReserver(c, p, q) => Reserver(pl.m, c, p, q).1
      case OVenteDirecte(c, r, q) => ConvertirRecolteDirecte(pl.m, c, r, q).1
      case _ => None
  }

  function EtapePlace(pl: Place, e: Evenement): Place {
    if e.Creer? && e.quantite <= 0.0 then pl
    else if RefusDe(pl, e).Some? then pl
    else
      var m := AppliquerTout(pl.m, Appels(pl, e));
      match e
      case Creer(p, r, q, st) => Place(m, pl.commandes + [Commande(p, r, q, st)])
      case Accepter(p, q) => Place(m, pl.commandes + [Commande(p, None, q, Confirmee)])
      case Maj(id, st) =>
        if id < |pl.commandes| then Place(m, pl.commandes[id := pl.commandes[id].(statut := st)]) else pl
      case Livrer(id) =>
        if id < |pl.commandes| then Place(m, pl.commandes[id := pl.commandes[id].(statut := Livree)]) else pl
  }

  function RunPlace(pl: Place, es: seq<Evenement>): Place {
    if es == [] then pl else EtapePlace(RunPlace(pl, es[..|es| - 1]), es[|es| - 1])
  }

  /** Every row belongs to an order and carries that order's own publication and quantity. */
  ghost predicate Fidele(pl: Place) {
    && Saine(pl.m)
    && forall i :: 0 <= i < |pl.m.resas| ==>
         var l := pl.m.resas[i];
         l.commande < |pl.commandes|
         && (l.publication.Some? ==>
               l.publication == pl.commandes[l.commande].publication && l.quantite == pl.commandes[l.commande].quantite)
  }

  lemma SansLigne(pl: Place, id: nat)
    requires Fidele(pl) && id >= |pl.commandes|
    ensures LigneDe(pl.m.resas, id).None?
  {
  }

  lemma UnAppelSuivi(s: Marche, o: Operation, r: nat)
    requires Saine(s) && Coherente(s, o) && r < |s.recoltes|
    ensures var m := Appliquer(s, o);
      Saine(m) && |m.recoltes| == |s.recoltes| && |m.publications| == |s.publications| && HorsLignes(m, r) == HorsLignes(s, r)
  {
    AppliquerSaine(s, o);
    VenduSuitLignes(s, o, r);
  }

  /** Converting what was just reserved, or refused, is coherent. */
  lemma ReserverPuisConvertir(s: Marche, c: nat, p: Option<nat>, q: real)
    requires LigneDe(s.resas, c).None?
    ensures Coherente(Appliquer(s, OReserver(c, p, q)), OConvertir(c, p, q))
  {
    var s' := Appliquer(s, OReserver(c, p, q));
    if s' != s {
      assert s'.resas[|s'.resas| - 1] == Resa(c, p, None, q, Active);
      assert LigneDe(s'.resas, c) == Some(|s.resas|);
    }
  }

  lemma LigneFidele(pl: Place, id: nat)
    requires Fidele(pl) && id < |pl.commandes|
    ensures Coherente(pl.m, OConvertir(id, pl.commandes[id].publication, pl.commandes[id].quantite))
  {
    if StatutDe(pl.m, id) == Some(Active) {
      var l := pl.m.resas[LigneDe(pl.m.resas, id).value];
      assert l.commande == id && l.statut == Active;
    }
  }

  /** A conversion the call sites ask for names the publication and quantity that were reserved. */
  lemma AppelsCoherents(pl: Place, e: Evenement)
    requires Fidele(pl) && Appels(pl, e) != []
    ensures Coherente(pl.m, Appels(pl, e)[0])
    ensures |Appels(pl, e)| == 2 ==> Coherente(Appliquer(pl.m, Appels(pl, e)[0]), Appels(pl, e)[1])
  {
    var n := |pl.commandes|;
    match e
    case Creer(p, r, q, st) => SansLigne(pl, n);
    case Accepter(p, q) =>
      SansLigne(pl, n);
      ReserverPuisConvertir(pl.m, n, p, q);
    case Maj(id, st) => if id < n { LigneFidele(pl, id); }
    case Livrer(_) =>
  }

  /** Whatever the event: the harvests' sold amounts follow the rows. */
  lemma AppelsSuivis(pl: Place, e: Evenement, r: nat)
    requires Fidele(pl) && r < |pl.m.recoltes|
    ensures var m := EtapePlace(pl, e).m;
      Saine(m) && |m.recoltes| == |pl.m.recoltes| && |m.publications| == |pl.m.publications| && HorsLignes(m, r) == HorsLignes(pl.m, r)
  {
    var appels := Appels(pl, e);
    if appels != [] {
      AppelsCoherents(pl, e);
      UnAppelSuivi(pl.m, appels[0], r);
      if |appels| == 2 { UnAppelSuivi(Appliquer(pl.m, appels[0]), appels[1], r); }
      DeuxAppels(pl.m, appels[0], appels[|appels| - 1]);
    }
  }

  lemma LignesDeAppel(s: Marche, o: Operation, n: nat, c: Commande)
    requires Saine(s) && (o.OReserver? || o.OConvertir? ==> o.publication == c.publication && o.q == c.quantite)
    requires o.commande == n
    ensures var s' := Appliquer(s, o);
      && |s.resas| <= |s'.resas|
      && (forall i :: 0 <= i < |s.resas| ==> s'.resas[i] == s.resas[i].(statut := s'.resas[i].statut))
      && (forall i :: |s.resas| <= i < |s'.resas| ==>
            s'.resas[i].commande == n
            && (s'.resas[i].publication.Some? ==> s'.resas[i].publication == c.publication && s'.resas[i].quantite == c.quantite))
  {
    LignesApres(s, o);
  }

  lemma AppelFidele(pl: Place, o: Operation, cs: seq<Commande>, n: nat)
    requires Fidele(pl) && o.commande == n < |cs| && |pl.commandes| <= |cs|
    requires forall i :: 0 <= i < |pl.commandes| ==>
      cs[i].publication == pl.commandes[i].publication && cs[i].quantite == pl.commandes[i].quantite
    requires o.OReserver? || o.OConvertir? ==> o.publication == cs[n].publication && o.q == cs[n].quantite
    ensures Fidele(Place(Appliquer(pl.m, o), cs))
  {
    AppliquerSaine(pl.m, o);
    LignesDeAppel(pl.m, o, n, cs[n]);
  }

  lemma EtapeFidele(pl: Place, e: Evenement)
    requires Fidele(pl)
    ensures Fidele(EtapePlace(pl, e))
  {
    var pl', appels := EtapePlace(pl, e), Appels(pl, e);
    if pl' != pl && appels != [] {
      var id := if e.Maj? then e.id else |pl.commandes|;
      AppelFidele(pl, appels[0], pl'.commandes, id);
      if |appels| == 2 { AppelFidele(Place(Appliquer(pl.m, appels[0]), pl'.commandes), appels[1], pl'.commandes, id); }
      DeuxAppels(pl.m, appels[0], appels[|appels| - 1]);
    }
  }

  /**
   Over every run of orders: each harvest's stock_vendu is what it started with plus the
   quantities of the rows converted out of it, by the market or by a direct sale.
   */
  lemma {:induction false} RunVendu(pl: Place, es: seq<Evenement>, r: nat)
    requires Fidele(pl) && r < |pl.m.recoltes|
    ensures Fidele(RunPlace(pl, es)) && |RunPlace(pl, es).m.recoltes| == |pl.m.recoltes|
    ensures HorsLignes(RunPlace(pl, es).m, r) == HorsLignes(pl.m, r)
  {
    if es != [] {
      var a := RunPlace(pl, es[..|es| - 1]);
      RunVendu(pl, es[..|es| - 1], r);
      EtapeFidele(a, es[|es| - 1]);
      AppelsSuivis(a, es[|es| - 1], r);
    }
  }

  /** The two call sites that convert an order which holds no reservation. */
  predicate ConvertitSansReserver(pl: Place, e: Evenement, p: nat) {
    || (e.Creer? && e.publication == Some(p) && e.statut == Confirmee && e.quantite > 0.0)
    || (e.Maj? && e.id < |pl.commandes| && e.statut == Confirmee && pl.commandes[e.id].statut != Confirmee
        && pl.commandes[e.id].publication == Some(p) && pl.commandes[e.id].quantite > 0.0 && LigneDe(pl.m.resas, e.id).None?)
  }

  /** What such an event sells beyond what publication p has. */
  function Survente(pl: Place, e: Evenement, p: nat): real
    requires p < |pl.m.publications|
  {
    if ConvertitSansReserver(pl, e, p)
    then Max(0.0, (if e.Creer? then e.quantite else pl.commandes[e.id].quantite) - pl.m.publications[p].disponible)
    else 0.0
  }

  /** What an event oversells is what its conversion, if it asks for one alone, clamps away. */
  lemma SurventeUnAppel(pl: Place, e: Evenement, p: nat)
    requires Fidele(pl) && p < |pl.m.publications| && |Appels(pl, e)| == 1
    ensures Survente(pl, e, p) == Manque(pl.m, Appels(pl, e)[0], p)
  {
    if e.Creer? { SansLigne(pl, |pl.commandes|); }
  }

  lemma UnAppel(pl: Place, e: Evenement)
    requires Fidele(pl) && |Appels(pl, e)| == 1
    ensures EtapePlace(pl, e).m == Appliquer(pl.m, Appels(pl, e)[0])
  {
    if e.Creer? { SansLigne(pl, |pl.commandes|); }
    DeuxAppels(pl.m, Appels(pl, e)[0], Appels(pl, e)[0]);
  }

  /** Reserving first, then converting, clamps nothing. */
  lemma AccepterMasse(s: Marche, c: nat, publication: Option<nat>, q: real, p: nat)
    requires Saine(s) && p < |s.publications| && LigneDe(s.resas, c).None? && Reserver(s, c, publication, q).1.None?
    ensures var m := Appliquer(Appliquer(s, OReserver(c, publication, q)), OConvertir(c, publication, q));
      |m.publications| == |s.publications| && Masse(m, p) == Masse(s, p)
  {
    var a := Appliquer(s, OReserver(c, publication, q));
    AppliquerSaine(s, OReserver(c, publication, q));
    Conservation(s, OReserver(c, publication, q), p);
    Conservation(a, OConvertir(c, publication, q), p);
    if a != s { assert LigneDe(a.resas, c).Some?; }
  }

  /**
   Available + reserved + sold of a publication changes exactly at those two call sites, and there
   by exactly the shortage; a negotiation's acceptance, which reserves first, never oversells.
   */
  lemma MasseEtape(pl: Place, e: Evenement, p: nat)
    requires Fidele(pl) && p < |pl.m.publications|
    ensures |EtapePlace(pl, e).m.publications| == |pl.m.publications|
    ensures Masse(EtapePlace(pl, e).m, p) == Masse(pl.m, p) + Survente(pl, e, p)
  {
    var appels := Appels(pl, e);
    if |appels| == 1 {
      UnAppel(pl, e);
      SurventeUnAppel(pl, e, p);
      Conservation(pl.m, appels[0], p);
    } else if |appels| == 2 && RefusDe(pl, e).None? {
      DeuxAppels(pl.m, appels[0], appels[1]);
      SansLigne(pl, |pl.commandes|);
      AccepterMasse(pl.m, |pl.commandes|, e.publication, e.quantite, p);
    }
  }

  lemma {:induction false} RunFidele(pl: Place, es: seq<Evenement>)
    requires Fidele(pl)
    ensures Fidele(RunPlace(pl, es))
    ensures |RunPlace(pl, es).m.publications| == |pl.m.publications| && |RunPlace(pl, es).m.recoltes| == |pl.m.recoltes|
  {
    if es != [] {
      var a := RunPlace(pl, es[..|es| - 1]);
      RunFidele(pl, es[..|es| - 1]);
      EtapeFidele(a, es[|es| - 1]);
      TailleMarche(a, es[|es| - 1]);
    }
  }

  lemma TailleMarche(pl: Place, e: Evenement)
    requires Fidele(pl)
    ensures MemesLiens(pl.m, EtapePlace(pl, e).m)
  {
    var appels := Appels(pl, e);
    if appels != [] {
      DeuxAppels(pl.m, appels[0], appels[|appels| - 1]);
      AppliquerSaine(pl.m, appels[0]);
      AppliquerSaine(Appliquer(pl.m, appels[0]), appels[|appels| - 1]);
    }
  }

  function SurventeTotale(pl: Place, es: seq<Evenement>, p: nat): real
    requires Fidele(pl) && p < |pl.m.publications|
  {
    if es == [] then 0.0
    else
      var a := es[..|es| - 1];
      RunFidele(pl, a);
      SurventeTotale(pl, a, p) + Survente(RunPlace(pl, a), es[|es| - 1], p)
  }

  /**
   Over every run of orders: what a publication has left, holds for orders and has sold is what it
   started with plus the shortages of the two call sites that convert without a reservation.
   */
  lemma {:induction false} RunMasse(pl: Place, es: seq<Evenement>, p: nat)
    requires Fidele(pl) && p < |pl.m.publications|
    ensures |RunPlace(pl, es).m.publications| == |pl.m.publications|
    ensures Masse(RunPlace(pl, es).m, p) == Masse(pl.m, p) + SurventeTotale(pl, es, p)
    ensures RunPlace(pl, es).m.publications[p].disponible >= 0.0
  {
    RunFidele(pl, es);
    if es != [] {
      var a := es[..|es| - 1];
      RunFidele(pl, a);
      RunMasse(pl, a, p);
      MasseEtape(RunPlace(pl, a), es[|es| - 1], p);
    }
  }

  // ── Harvests over runs ──────────────────────────────────────────────────

  /** The harvest an order of publication p or of harvest `recolte` is sold out of. */
  predicate ProvientDe(m: Marche, p: Option<nat>, recolte: Option<nat>, r: nat) {
    if p.Some? then p.value < |m.publications| && m.publications[p.value].recolte == Some(r) else recolte == Some(r)
  }

  /** What an event sells out of harvest r: the quantity of the order it confirms, unless that order was sold or released already. */
  function VenteDe(pl: Place, e: Evenement, r: nat): real {
    match e
    case Creer(p, rec, q, st) => if st == Confirmee && q > 0.0 && ProvientDe(pl.m, p, rec, r) then q else 0.0
    case Accepter(p, q) =>
      if p.Some? && q > 0.0 && RefusDe(pl, e).None? && ProvientDe(pl.m, p, None, r) then q else 0.0
    case Maj(id, st) =>
      if id < |pl.commandes| && st == Confirmee && pl.commandes[id].statut != Confirmee then
        var c := pl.commandes[id];
        var a := StatutDe(pl.m, id);
        if ProvientDe(pl.m, c.publication, c.recolte, r)
           && (if c.publication.Some? then ConversionEffective(pl.m, id, c.quantite) else a.None? && c.quantite > 0.0)
        then c.quantite else 0.0
      else 0.0
    case Livrer(_) => 0.0
  }

  /** What an event sells of harvest r beyond what it has left. */
  function ManqueEvenement(pl: Place, e: Evenement, r: nat): real
    requires r < |pl.m.recoltes|
  {
    Max(0.0, VenteDe(pl, e, r) - pl.m.recoltes[r].disponible)
  }

  /** A reservation leaves harvests alone, and makes the conversion that follows it effective. */
  lemma ReserverHorsRecoltes(s: Marche, c: nat, p: Option<nat>, q: real)
    requires LigneDe(s.resas, c).None?
    ensures var s' := Appliquer(s, OReserver(c, p, q));
      && s'.recoltes == s.recoltes && MemesLiens(s, s')
      && (p.Some? && Reserver(s, c, p, q).1.None? ==> (ConversionEffective(s', c, q) <==> q > 0.0))
  {
    var s' := Appliquer(s, OReserver(c, p, q));
    if s' != s { assert LigneDe(s'.resas, c) == Some(|s.resas|); }
  }

  /** An event that asks for one call sells what that call takes out. */
  lemma SortieUnAppel(pl: Place, e: Evenement, r: nat)
    requires Fidele(pl) && r < |pl.m.recoltes| && |Appels(pl, e)| == 1
    ensures VenteDe(pl, e, r) == Sortie(pl.m, Appels(pl, e)[0], r)
  {
    if e.Creer? { SansLigne(pl, |pl.commandes|); }
  }

  /** Whatever the event: the harvest sells exactly that, down to nothing available. */
  lemma RecolteEvenement(pl: Place, e: Evenement, r: nat)
    requires Fidele(pl) && r < |pl.m.recoltes|
    ensures var m := EtapePlace(pl, e).m;
      && |m.recoltes| == |pl.m.recoltes|
      && m.recoltes[r].vendu == pl.m.recoltes[r].vendu + VenteDe(pl, e, r) && VenteDe(pl, e, r) >= 0.0
      && m.recoltes[r].disponible == Max(0.0, pl.m.recoltes[r].disponible - VenteDe(pl, e, r))
  {
    var appels := Appels(pl, e);
    if appels != [] { AppelsCoherents(pl, e); }
    if |appels| == 1 {
      UnAppel(pl, e);
      SortieUnAppel(pl, e, r);
      RecolteConservee(pl.m, appels[0], r);
    } else if |appels| == 2 && RefusDe(pl, e).None? {
      DeuxAppels(pl.m, appels[0], appels[1]);
      SansLigne(pl, |pl.commandes|);
      ReserverHorsRecoltes(pl.m, |pl.commandes|, e.publication, e.quantite);
      AppliquerSaine(pl.m, appels[0]);
      RecolteConservee(Appliquer(pl.m, appels[0]), appels[1], r);
    }
  }

  function ManqueTotal(pl: Place, es: seq<Evenement>, r: nat): real
    requires Fidele(pl) && r < |pl.m.recoltes|
  {
    if es == [] then 0.0
    else
      var a := es[..|es| - 1];
      RunFidele(pl, a);
      ManqueTotal(pl, a, r) + ManqueEvenement(RunPlace(pl, a), es[|es| - 1], r)
  }

  /** Over every run of orders: available + sold of a harvest is what it started with plus the shortages clamped away. */
  lemma {:induction false} RunRecolte(pl: Place, es: seq<Evenement>, r: nat)
    requires Fidele(pl) && r < |pl.m.recoltes|
    ensures var m := RunPlace(pl, es).m;
      && |m.recoltes| == |pl.m.recoltes|
      && m.recoltes[r].disponible + m.recoltes[r].vendu
         == pl.m.recoltes[r].disponible + pl.m.recoltes[r].vendu + ManqueTotal(pl, es, r)
      && m.recoltes[r].vendu >= pl.m.recoltes[r].vendu && m.recoltes[r].disponible >= 0.0
  {
    RunFidele(pl, es);
    if es != [] {
      var a := es[..|es| - 1];
      RunFidele(pl, a);
      RunRecolte(pl, a, r);
      RecolteEvenement(RunPlace(pl, a), es[|es| - 1], r);
    }
  }
}
