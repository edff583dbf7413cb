/** Running out: when a publication is marked exhausted and a harvest sold, over every run of orders. */
module FinLois {
  import opened Commun
  import opened Reservation
  import opened ReservationLois
  import opened Commandes

  // ── What a run does to a status ─────────────────────────────────────────

  /** The event converts an order of publication p. */
  predicate Convertit(pl: Place, e: Evenement, p: nat) {
    var appels := Appels(pl, e);
    appels != [] && appels[|appels| - 1].OConvertir? && appels[|appels| - 1].publication == Some(p)
  }

  lemma PublicationEvenement(pl: Place, e: Evenement, p: nat)
    requires Fidele(pl) && p < |pl.m.publications|
    ensures var m := EtapePlace(pl, e).m;
      && |m.publications| == |pl.m.publications|
      && (m.publications[p].statut != pl.m.publications[p].statut ==>
            Convertit(pl, e, p) && pl.m.publications[p].statut == Disponible && m.publications[p].statut == Epuise
            && m.publications[p].disponible == 0.0)
      && (Convertit(pl, e, p) && m != pl.m ==> !(m.publications[p].disponible == 0.0 && m.publications[p].statut == Disponible))
  {
    var appels := Appels(pl, e);
    if |appels| == 1 {
      UnAppel(pl, e);
      FinDePublication(pl.m, appels[0], p);
    } else if |appels| == 2 && RefusDe(pl, e).None? {
      DeuxAppels(pl.m, appels[0], appels[1]);
      SansLigne(pl, |pl.commandes|);
      AppliquerSaine(pl.m, appels[0]);
      ReserverHorsRecoltes(pl.m, |pl.commandes|, e.publication, e.quantite);
      FinDePublication(pl.m, appels[0], p);
      FinDePublication(Appliquer(pl.m, appels[0]), appels[1], p);
    }
  }

  /** Over every run of orders a publication only goes from on offer to exhausted. */
  lemma {:induction false} RunStatut(pl: Place, es: seq<Evenement>, p: nat)
    requires Fidele(pl) && p < |pl.m.publications|
    ensures var m := RunPlace(pl, es).m;
      && |m.publications| == |pl.m.publications|
      && (m.publications[p].statut != pl.m.publications[p].statut ==> pl.m.publications[p].statut == Disponible && m.publications[p].statut == Epuise)
  {
    if es != [] {
      var a := es[..|es| - 1];
      RunFidele(pl, a);
      RunStatut(pl, a, p);
      PublicationEvenement(RunPlace(pl, a), es[|es| - 1], p);
    }
  }

  /** A harvest only loses stock; one that moved is marked sold exactly when it was already or has nothing left. */
  ghost predicate Vidange(s: Marche, s': Marche, r: nat)
    requires r < |s.recoltes|
  {
    && |s'.recoltes| == |s.recoltes|
    && 0.0 <= s'.recoltes[r].disponible <= s.recoltes[r].disponible
    && (s'.recoltes[r] != s.recoltes[r] ==>
          (s'.recoltes[r].vendue <==> s.recoltes[r].vendue || s'.recoltes[r].disponible == 0.0))
  }

  lemma VidangeEvenement(pl: Place, e: Evenement, r: nat)
    requires Fidele(pl) && r < |pl.m.recoltes|
    ensures Vidange(pl.m, EtapePlace(pl, e).m, r)
  {
    var appels := Appels(pl, e);
    RecolteEvenement(pl, e, r);
    if |appels| == 1 {
      UnAppel(pl, e);
      FinDeRecolte(pl.m, appels[0], r);
    } else if |appels| == 2 && RefusDe(pl, e).None? {
      DeuxAppels(pl.m, appels[0], appels[1]);
      SansLigne(pl, |pl.commandes|);
      AppliquerSaine(pl.m, appels[0]);
      ReserverHorsRecoltes(pl.m, |pl.commandes|, e.publication, e.quantite);
      FinDeRecolte(Appliquer(pl.m, appels[0]), appels[1], r);
    }
  }

  /** Over every run of orders. */
  lemma {:induction false} RunVidange(pl: Place, es: seq<Evenement>, r: nat)
    requires Fidele(pl) && r < |pl.m.recoltes|
    ensures Vidange(pl.m, RunPlace(pl, es).m, r)
  {
    if es != [] {
      var a := es[..|es| - 1];
      RunFidele(pl, a);
      RunVidange(pl, a, r);
      VidangeEvenement(RunPlace(pl, a), es[|es| - 1], r);
    }
  }

  // ── Exhausted means empty, but for one kind of cancellation ─────────────

  ghost predicate EpuiseeVide(m: Marche, p: nat)
    requires p < |m.publications|
  {
    m.publications[p].statut == Epuise ==> m.publications[p].disponible == 0.0
  }

  /** The operation gives back to an exhausted publication what an order held of it. */
  predicate RendAUneEpuisee(s: Marche, o: Operation, p: nat) {
    && o.OLiberer? && StatutDe(s, o.commande) == Some(Active)
    && s.resas[LigneDe(s.resas, o.commande).value].publication == Some(p)
    && p < |s.publications| && s.publications[p].statut == Epuise
  }

  lemma OperationEpuisee(s: Marche, o: Operation, p: nat)
    requires Saine(s) && p < |s.publications| && EpuiseeVide(s, p)
    ensures |Appliquer(s, o).publications| == |s.publications|
    ensures EpuiseeVide(Appliquer(s, o), p) <==> !RendAUneEpuisee(s, o, p)
  {
    AppliquerSaine(s, o);
  }

  /** An order still holding stock of an exhausted publication is cancelled. */
  predicate AnnuleSurEpuisee(pl: Place, e: Evenement, p: nat) {
    && e.Maj? && e.id < |pl.commandes| && e.statut == CommandeAnnulee && pl.commandes[e.id].statut != CommandeAnnulee
    && pl.commandes[e.id].publication == Some(p) && StatutDe(pl.m, e.id) == Some(Active)
    && p < |pl.m.publications| && pl.m.publications[p].statut == Epuise
  }

  lemma AnnuleEtRend(pl: Place, e: Evenement, p: nat)
    requires Fidele(pl) && |Appels(pl, e)| == 1
    ensures AnnuleSurEpuisee(pl, e, p) <==> RendAUneEpuisee(pl.m, Appels(pl, e)[0], p)
  {
    if e.Maj? && StatutDe(pl.m, e.id) == Some(Active) {
      var l := pl.m.resas[LigneDe(pl.m.resas, e.id).value];
      assert l.commande == e.id && l.statut == Active && l.publication.Some?;
    }
  }

  /** From exhausted publications that are empty, an event keeps them so if and only if it is not such a cancellation. */
  lemma EvenementEpuisee(pl: Place, e: Evenement, p: nat)
    requires Fidele(pl) && p < |pl.m.publications| && EpuiseeVide(pl.m, p)
    ensures |EtapePlace(pl, e).m.publications| == |pl.m.publications|
    ensures EpuiseeVide(EtapePlace(pl, e).m, p) <==> !AnnuleSurEpuisee(pl, e, p)
  {
    var appels := Appels(pl, e);
    if |appels| == 1 {
      UnAppel(pl, e);
      AnnuleEtRend(pl, e, p);
      OperationEpuisee(pl.m, appels[0], p);
    } else if |appels| == 2 && RefusDe(pl, e).None? {
      DeuxAppels(pl.m, appels[0], appels[1]);
      AppliquerSaine(pl.m, appels[0]);
      OperationEpuisee(pl.m, appels[0], p);
      OperationEpuisee(Appliquer(pl.m, appels[0]), appels[1], p);
    }
  }

  ghost predicate VideApres(pl: Place, es: seq<Evenement>, k: nat, p: nat)
    requires Fidele(pl) && k <= |es| && p < |pl.m.publications|
  {
    RunFidele(pl, es[..k]);
    EpuiseeVide(RunPlace(pl, es[..k]).m, p)
  }

  lemma VideUnPas(pl: Place, es: seq<Evenement>, k: nat, p: nat)
    requires Fidele(pl) && k < |es| && p < |pl.m.publications| && VideApres(pl, es, k, p)
    ensures VideApres(pl, es, k + 1, p) <==> !AnnuleSurEpuisee(RunPlace(pl, es[..k]), es[k], p)
  {
    RunFidele(pl, es[..k]);
    assert es[..k + 1][..k] == es[..k];
    EvenementEpuisee(RunPlace(pl, es[..k]), es[k], p);
  }

  lemma {:induction false} VideJusqua(pl: Place, es: seq<Evenement>, k: nat, p: nat)
    requires Fidele(pl) && k <= |es| && p < |pl.m.publications| && EpuiseeVide(pl.m, p)
    requires forall j :: 0 <= j < k ==> !AnnuleSurEpuisee(RunPlace(pl, es[..j]), es[j], p)
    ensures VideApres(pl, es, k, p)
  {
    if k > 0 {
      VideJusqua(pl, es, k - 1, p);
      VideUnPas(pl, es, k - 1, p);
    }
  }

  /** Over whole runs: exhausted means empty after every step if and only if no step is such a cancellation. */
  lemma RunEpuisee(pl: Place, es: seq<Evenement>, p: nat)
    requires Fidele(pl) && p < |pl.m.publications| && EpuiseeVide(pl.m, p)
    ensures (forall k :: 0 <= k <= |es| ==> VideApres(pl, es, k, p))
       <==> (forall k :: 0 <= k < |es| ==> !AnnuleSurEpuisee(RunPlace(pl, es[..k]), es[k], p))
  {
    if forall k :: 0 <= k <= |es| ==> VideApres(pl, es, k, p) {
      forall k | 0 <= k < |es| ensures !AnnuleSurEpuisee(RunPlace(pl, es[..k]), es[k], p) { VideUnPas(pl, es, k, p); }
    }
    if forall k :: 0 <= k < |es| ==> !AnnuleSurEpuisee(RunPlace(pl, es[..k]), es[k], p) {
      forall k | 0 <= k <= |es| ensures VideApres(pl, es, k, p) { VideJusqua(pl, es, k, p); }
    }
  }

  // ── Such a run ──────────────────────────────────────────────────────────

  /** Two orders hold all of a publication between them; one is confirmed, the other cancelled. */
  function DeuxCommandes(q: real): seq<Evenement> {
    [Creer(Some(0), None, q, EnAttente), Creer(Some(0), None, q, EnAttente), Maj(0, Confirmee), Maj(1, CommandeAnnulee)]
  }

  function Offre(dispo: real, statut: StatutPublication, resas: seq<Resa>): Marche {
    Marche([Publication(dispo, None, statut)], [], resas)
  }

  /** The two orders, as their statuses. */
  function Deux(q: real, a: StatutCommande, b: StatutCommande): seq<Commande> {
    [Commande(Some(0), None, q, a), Commande(Some(0), None, q, b)]
  }

  lemma ReserverUne(dispo: real, resas: seq<Resa>, cs: seq<Commande>, q: real)
    requires 0.0 < q <= dispo && LigneDe(resas, |cs|).None?
    ensures EtapePlace(Place(Offre(dispo, Disponible, resas), cs), Creer(Some(0), None, q, EnAttente))
         == Place(Offre(dispo - q, Disponible, resas + [Resa(|cs|, Some(0), None, q, Active)]), cs + [Commande(Some(0), None, q, EnAttente)])
  {
    var m, o, e := Offre(dispo, Disponible, resas), OReserver(|cs|, Some(0), q), Creer(Some(0), None, q, EnAttente);
    assert Appels(Place(m, cs), e) == [o];
    assert Appliquer(m, o).publications == [Publication(dispo - q, None, Disponible)];
    DeuxAppels(m, o, o);
  }

  lemma ReserverLesDeux(q: real)
    requires q > 0.0
    ensures var un, deux := Resa(0, Some(0), None, q, Active), Resa(1, Some(0), None, q, Active);
      EtapePlace(EtapePlace(Place(Offre(q + q, Disponible, []), []), DeuxCommandes(q)[0]), DeuxCommandes(q)[1])
      == Place(Offre(0.0, Disponible, [un, deux]), Deux(q, EnAttente, EnAttente))
  {
    var un, c := Resa(0, Some(0), None, q, Active), Commande(Some(0), None, q, EnAttente);
    ReserverUne(q + q, [], [], q);
    assert LigneDe([un], 1).None?;
    ReserverUne(q, [un], [c], q);
    assert [] + [un] == [un] && [] + [c] == [c] && q + q - q == q && q - q == 0.0;
    assert [un] + [Resa(1, Some(0), None, q, Active)] == [un, Resa(1, Some(0), None, q, Active)] && [c] + [c] == Deux(q, EnAttente, EnAttente);
  }

  lemma LignesDesDeux(q: real, a: StatutResa, b: StatutResa)
    ensures var rs := [Resa(0, Some(0), None, q, a), Resa(1, Some(0), None, q, b)];
      LigneDe(rs, 0) == Some(0) && LigneDe(rs, 1) == Some(1)
  {
  }

  lemma ConfirmerEtAnnuler(q: real)
    ensures var un, deux := Resa(0, Some(0), None, q, Active), Resa(1, Some(0), None, q, Active);
      var pl := Place(Offre(0.0, Disponible, [un, deux]), Deux(q, EnAttente, EnAttente));
      EtapePlace(EtapePlace(pl, Maj(0, Confirmee)), Maj(1, CommandeAnnulee))
      == Place(Offre(q, Epuise, [un.(statut := Convertie), deux.(statut := Liberee)]), Deux(q, Confirmee, CommandeAnnulee))
  {
    var un, deux := Resa(0, Some(0), None, q, Active), Resa(1, Some(0), None, q, Active);
    var pl := Place(Offre(0.0, Disponible, [un, deux]), Deux(q, EnAttente, EnAttente));
    LignesDesDeux(q, Active, Active);
    LignesDesDeux(q, Convertie, Active);
    DeuxAppels(pl.m, OConvertir(0, Some(0), q), OConvertir(0, Some(0), q));
    var m := EtapePlace(pl, Maj(0, Confirmee));
    assert m == Place(Offre(0.0, Epuise, [un.(statut := Convertie), deux]), Deux(q, Confirmee, EnAttente));
    DeuxAppels(m.m, OLiberer(1), OLiberer(1));
  }

  lemma QuatreEvenements(pl: Place, es: seq<Evenement>)
    requires |es| == 4
    ensures RunPlace(pl, es) == EtapePlace(EtapePlace(EtapePlace(EtapePlace(pl, es[0]), es[1]), es[2]), es[3])
  {
    assert es[..3][..2][..1][..0] == [] && es[..3][..2][..1] == [es[0]] && es[..3][..2] == [es[0], es[1]];
    assert es[..3] == [es[0], es[1], es[2]];
    assert RunPlace(pl, [es[0]]) == EtapePlace(pl, es[0]);
    assert RunPlace(pl, [es[0], es[1]]) == EtapePlace(EtapePlace(pl, es[0]), es[1]);
  }

  /**
   What was given back is no longer on offer: a publication of 2q, of which q was sold and q released, keeps q and
   is marked exhausted, whatever orders follow.
   */
  lemma RenduMaisEpuise(q: real, suite: seq<Evenement>)
    requires q > 0.0
    ensures var pl := RunPlace(Place(Offre(q + q, Disponible, []), []), DeuxCommandes(q));
      && |pl.m.publications| == 1 && pl.m.publications[0].disponible == q && pl.m.publications[0].statut == Epuise
      && |RunPlace(pl, suite).m.publications| == 1 && RunPlace(pl, suite).m.publications[0].statut == Epuise
  {
    var pl := RunPlace(Place(Offre(q + q, Disponible, []), []), DeuxCommandes(q));
    QuatreEvenements(Place(Offre(q + q, Disponible, []), []), DeuxCommandes(q));
    ReserverLesDeux(q);
    ConfirmerEtAnnuler(q);
    RunFidele(Place(Offre(q + q, Disponible, []), []), DeuxCommandes(q));
    RunFidele(pl, suite);
    RunStatut(pl, suite, 0);
  }
}
