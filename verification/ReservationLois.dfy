/** The laws of reservations over every sequence of operations on any number of orders. */
module ReservationLois {
  import opened Commun
  import opened Sommes
  import opened Reservation

  /** At most one row per order; quantities are positive; an active row holds stock of an existing publication. */
  ghost predicate Saine(s: Marche) {
    && (forall i, j :: 0 <= i < j < |s.resas| ==> s.resas[i].commande != s.resas[j].commande)
    && (forall i :: 0 <= i < |s.resas| ==>
          s.resas[i].quantite > 0.0
          && (s.resas[i].publication.Some? ==> s.resas[i].publication.value < |s.publications| && s.resas[i].recolte.None?)
          && (s.resas[i].recolte.Some? ==> s.resas[i].recolte.value < |s.recoltes|)
          && (s.resas[i].statut == Active ==> s.resas[i].publication.Some?))
    && (forall p :: 0 <= p < |s.publications| ==>
          s.publications[p].disponible >= 0.0
          && (s.publications[p].recolte.Some? ==> s.publications[p].recolte.value < |s.recoltes|))
    && (forall r :: 0 <= r < |s.recoltes| ==> s.recoltes[r].disponible >= 0.0)
  }

  /** Same publications and harvests, sold through the same links. */
  ghost predicate MemesLiens(s: Marche, s': Marche) {
    && |s'.publications| == |s.publications| && |s'.recoltes| == |s.recoltes|
    && forall p :: 0 <= p < |s.publications| ==> s'.publications[p].recolte == s.publications[p].recolte
  }

  lemma ReserverSaine(s: Marche, commande: nat, p: nat, q: real)
    requires Saine(s) && p < |s.publications| && LigneDe(s.resas, commande).None? && 0.0 < q <= s.publications[p].disponible
    ensures Saine(EcrireReservation(s, commande, p, q)) && MemesLiens(s, EcrireReservation(s, commande, p, q))
  {
  }

  lemma ConvertirSaine(s: Marche, commande: nat, p: nat, q: real)
    requires Saine(s) && p < |s.publications| && (LigneDe(s.resas, commande).None? ==> q > 0.0)
    ensures Saine(EcrireConversion(s, commande, p, q)) && MemesLiens(s, EcrireConversion(s, commande, p, q))
  {
  }

  lemma VenteDirecteSaine(s: Marche, commande: nat, r: nat, q: real)
    requires Saine(s) && r < |s.recoltes| && LigneDe(s.resas, commande).None? && q > 0.0
    ensures Saine(EcrireVenteDirecte(s, commande, r, q)) && MemesLiens(s, EcrireVenteDirecte(s, commande, r, q))
  {
  }

  lemma LibererSaine(s: Marche, i: nat)
    requires Saine(s) && i < |s.resas|
    ensures Saine(EcrireLiberation(s, i)) && MemesLiens(s, EcrireLiberation(s, i))
  {
  }

  lemma AppliquerSaine(s: Marche, o: Operation)
    requires Saine(s)
    ensures Saine(Appliquer(s, o)) && MemesLiens(s, Appliquer(s, o))
  {
    if Appliquer(s, o) != s {
      match o
      case OReserver(c, p, q) => ReserverSaine(s, c, p.value, q);
      case OConvertir(c, p, q) => ConvertirSaine(s, c, p.value, q);
      case OVenteDirecte(c, r, q) => VenteDirecteSaine(s, c, r.value, q);
      case OLiberer(c) => LibererSaine(s, LigneDe(s.resas, c).value);
    }
  }

  // ── Conservation ────────────────────────────────────────────────────────

  /** What the rows hold of publication p: reserved or sold. */
  function Tenu(p: nat): Resa -> real {
    (l: Resa) => if l.publication == Some(p) && l.statut != Liberee then l.quantite else 0.0
  }

  function Masse(s: Marche, p: nat): real
    requires p < |s.publications|
  {
    s.publications[p].disponible + Somme(Tenu(p), s.resas)
  }

  /** The shortage GREATEST(0, …) clamps away: a conversion without reservation of more than is left. */
  function Manque(s: Marche, o: Operation, p: nat): real
    requires p < |s.publications|
  {
    if o.OConvertir? && o.publication == Some(p) && LigneDe(s.resas, o.commande).None? && o.q > 0.0
    then Max(0.0, o.q - s.publications[p].disponible)
    else 0.0
  }

  lemma ReserverMasse(s: Marche, commande: nat, p0: nat, q: real, p: nat)
    requires p0 < |s.publications| && p < |s.publications|
    ensures Masse(EcrireReservation(s, commande, p0, q), p) == Masse(s, p)
  {
    SommeAjout(Tenu(p), s.resas, Resa(commande, Some(p0), None, q, Active));
  }

  lemma ConvertirMasse(s: Marche, commande: nat, p0: nat, q: real, p: nat)
    requires p0 < |s.publications| && p < |s.publications|
    requires var i := LigneDe(s.resas, commande); i.Some? ==> s.resas[i.value].statut == Active
    ensures Masse(EcrireConversion(s, commande, p0, q), p)
         == Masse(s, p) + if p0 == p && LigneDe(s.resas, commande).None? then Max(0.0, q - s.publications[p].disponible) else 0.0
  {
    var i := LigneDe(s.resas, commande);
    if i.Some? { SommeMaj(Tenu(p), s.resas, i.value, s.resas[i.value].(statut := Convertie)); }
    else { SommeAjout(Tenu(p), s.resas, Resa(commande, Some(p0), None, q, Convertie)); }
  }

  lemma VenteDirecteMasse(s: Marche, commande: nat, r: nat, q: real, p: nat)
    requires p < |s.publications|
    ensures Masse(EcrireVenteDirecte(s, commande, r, q), p) == Masse(s, p)
  {
    SommeAjout(Tenu(p), s.resas, Resa(commande, None, Some(r), q, Convertie));
  }

  lemma LibererMasse(s: Marche, i: nat, p: nat)
    requires i < |s.resas| && s.resas[i].statut == Active && p < |s.publications|
    ensures Masse(EcrireLiberation(s, i), p) == Masse(s, p)
  {
    SommeMaj(Tenu(p), s.resas, i, s.resas[i].(statut := Liberee));
  }

  /** A conversion that is short writes its row. */
  lemma ManqueEcrit(s: Marche, o: Operation, p: nat)
    requires p < |s.publications| && Manque(s, o, p) > 0.0
    ensures |Appliquer(s, o).resas| == |s.resas| + 1
  {
  }

  lemma Conservation(s: Marche, o: Operation, p: nat)
    requires Saine(s) && p < |s.publications|
    ensures |Appliquer(s, o).publications| == |s.publications|
    ensures Masse(Appliquer(s, o), p) == Masse(s, p) + Manque(s, o, p)
  {
    AppliquerSaine(s, o);
    if Manque(s, o, p) > 0.0 { ManqueEcrit(s, o, p); }
    if Appliquer(s, o) != s {
      match o
      case OReserver(c, p0, q) => ReserverMasse(s, c, p0.value, q, p);
      case OConvertir(c, p0, q) => ConvertirMasse(s, c, p0.value, q, p);
      case OVenteDirecte(c, r, q) => VenteDirecteMasse(s, c, r.value, q, p);
      case OLiberer(c) => LibererMasse(s, LigneDe(s.resas, c).value, p);
    }
  }

  function Manques(s: Marche, os: seq<Operation>, p: nat): real
    requires Saine(s) && p < |s.publications|
  {
    if os == [] then 0.0
    else
      var a := os[..|os| - 1];
      ToutSaine(s, a);
      Manques(s, a, p) + Manque(AppliquerTout(s, a), os[|os| - 1], p)
  }

  lemma {:induction false} ToutSaine(s: Marche, os: seq<Operation>)
    requires Saine(s)
    ensures Saine(AppliquerTout(s, os))
    ensures |AppliquerTout(s, os).publications| == |s.publications| && |AppliquerTout(s, os).recoltes| == |s.recoltes|
    ensures forall p :: 0 <= p < |s.publications| ==> AppliquerTout(s, os).publications[p].recolte == s.publications[p].recolte
  {
    if os != [] {
      ToutSaine(s, os[..|os| - 1]);
      AppliquerSaine(AppliquerTout(s, os[..|os| - 1]), os[|os| - 1]);
    }
  }

  /**
   Over every interleaving of operations on any orders: available + reserved + sold is the
   initial amount plus the shortages clamped away, and nothing available is ever negative.
   */
  lemma {:induction false} ConservationTout(s: Marche, os: seq<Operation>, p: nat)
    requires Saine(s) && p < |s.publications|
    ensures Saine(AppliquerTout(s, os)) && |AppliquerTout(s, os).publications| == |s.publications|
    ensures Masse(AppliquerTout(s, os), p) == Masse(s, p) + Manques(s, os, p)
    ensures AppliquerTout(s, os).publications[p].disponible >= 0.0
  {
    ToutSaine(s, os);
    if os != [] {
      var a := os[..|os| - 1];
      ToutSaine(s, a);
      ConservationTout(s, a, p);
      Conservation(AppliquerTout(s, a), os[|os| - 1], p);
    }
  }

  lemma DeuxAppels(s: Marche, a: Operation, b: Operation)
    ensures AppliquerTout(s, [a]) == Appliquer(s, a)
    ensures AppliquerTout(s, [a, b]) == Appliquer(Appliquer(s, a), b)
  {
    assert [a][..0] == [] && [a, b][..1] == [a];
  }

  lemma {:induction false} ToutConcat(s: Marche, a: seq<Operation>, b: seq<Operation>)
    ensures AppliquerTout(s, a + b) == AppliquerTout(AppliquerTout(s, a), b)
  {
    if b == [] {
      assert a + b == a;
    } else {
      assert (a + b)[..|a + b| - 1] == a + b[..|b| - 1];
      ToutConcat(s, a, b[..|b| - 1]);
    }
  }

  /** Every conversion of publication p finds a row of its order: it was reserved, or already handled. */
  ghost predicate ToutReserve(s: Marche, os: seq<Operation>, p: nat) {
    forall k :: 0 <= k < |os| && os[k].OConvertir? && os[k].publication == Some(p) ==>
      LigneDe(AppliquerTout(s, os[..k]).resas, os[k].commande).Some?
  }

  /** Then what is reserved and sold never exceeds what there was: no overselling. */
  lemma {:induction false} PasDeSurvente(s: Marche, os: seq<Operation>, p: nat)
    requires Saine(s) && p < |s.publications| && ToutReserve(s, os, p)
    ensures Manques(s, os, p) == 0.0
    ensures Somme(Tenu(p), AppliquerTout(s, os).resas) <= Masse(s, p)
  {
    ConservationTout(s, os, p);
    if os != [] {
      var a := os[..|os| - 1];
      forall k | 0 <= k < |a| && a[k].OConvertir? && a[k].publication == Some(p)
        ensures LigneDe(AppliquerTout(s, a[..k]).resas, a[k].commande).Some?
      {
        assert a[..k] == os[..k];
      }
      PasDeSurvente(s, a, p);
      ToutSaine(s, a);
    }
  }

  // ── Life cycle and idempotence ──────────────────────────────────────────

  function StatutDe(s: Marche, commande: nat): Option<StatutResa> {
    var i := LigneDe(s.resas, commande);
    if i.None? then None else Some(s.resas[i.value].statut)
  }

  /** none → active → {convertie, liberee}, none → convertie; the last two absorb. */
  predicate Transition(a: Option<StatutResa>, b: Option<StatutResa>) {
    a == b || (a.None? && b != Some(Liberee)) || (a == Some(Active) && b.Some?)
  }

  lemma LigneStable(resas: seq<Resa>, i: nat, commande: nat)
    requires i < |resas| && resas[i].commande == commande
    requires forall j, k :: 0 <= j < k < |resas| ==> resas[j].commande != resas[k].commande
    ensures LigneDe(resas, commande) == Some(i)
  {
    if LigneDe(resas, commande).value < i {} else if LigneDe(resas, commande).value > i {}
  }

  /** Rows are never removed nor reassigned; only the operation's own order moves, at most by one row or one status. */
  lemma LignesApres(s: Marche, o: Operation)
    requires Saine(s)
    ensures var s' := Appliquer(s, o);
      && |s.resas| <= |s'.resas| <= |s.resas| + 1
      && (forall j :: 0 <= j < |s.resas| ==>
            s'.resas[j] == s.resas[j].(statut := s'.resas[j].statut)
            && (s'.resas[j].statut == s.resas[j].statut || (s.resas[j].statut == Active && s.resas[j].commande == o.commande)))
      && (|s'.resas| > |s.resas| ==>
            s'.resas[|s.resas|].commande == o.commande && s'.resas[|s.resas|].statut != Liberee && LigneDe(s.resas, o.commande).None?)
  {
  }

  lemma StatutApres(s: Marche, o: Operation, commande: nat)
    requires Saine(s)
    ensures Transition(StatutDe(s, commande), StatutDe(Appliquer(s, o), commande))
    ensures o.commande != commande ==> StatutDe(Appliquer(s, o), commande) == StatutDe(s, commande)
  {
    AppliquerSaine(s, o);
    LignesApres(s, o);
    StatutSuit(s, Appliquer(s, o), o, commande);
  }

  lemma StatutSuit(s: Marche, s': Marche, o: Operation, commande: nat)
    requires forall j, k :: 0 <= j < k < |s'.resas| ==> s'.resas[j].commande != s'.resas[k].commande
    requires |s.resas| <= |s'.resas| <= |s.resas| + 1
    requires forall j :: 0 <= j < |s.resas| ==>
      s'.resas[j].commande == s.resas[j].commande
      && (s'.resas[j].statut == s.resas[j].statut || (s.resas[j].statut == Active && s.resas[j].commande == o.commande))
    requires |s'.resas| > |s.resas| ==> s'.resas[|s.resas|].commande == o.commande && s'.resas[|s.resas|].statut != Liberee
    ensures Transition(StatutDe(s, commande), StatutDe(s', commande))
    ensures o.commande != commande ==> StatutDe(s', commande) == StatutDe(s, commande)
  {
    var i, i' := LigneDe(s.resas, commande), LigneDe(s'.resas, commande);
    if i.Some? {
      LigneStable(s'.resas, i.value, commande);
    }
  }

  /** Over every run: converted and released are final. */
  lemma {:induction false} Absorbant(s: Marche, os: seq<Operation>, commande: nat)
    requires Saine(s) && StatutDe(s, commande) in {Some(Convertie), Some(Liberee)}
    ensures StatutDe(AppliquerTout(s, os), commande) == StatutDe(s, commande)
  {
    if os != [] {
      Absorbant(s, os[..|os| - 1], commande);
      ToutSaine(s, os[..|os| - 1]);
      StatutApres(AppliquerTout(s, os[..|os| - 1]), os[|os| - 1], commande);
    }
  }

  /** Replaying an operation has no second effect. */
  lemma Idempotent(s: Marche, o: Operation)
    requires Saine(s)
    ensures Appliquer(Appliquer(s, o), o) == Appliquer(s, o)
  {
    var s' := Appliquer(s, o);
    AppliquerSaine(s, o);
    if s' != s {
      var i := LigneDe(s.resas, o.commande);
      LigneStable(s'.resas, if i.Some? then i.value else |s.resas|, o.commande);
    }
  }

  /** Releasing what was just reserved gives the publication back what it had. */
  lemma ReserverPuisLiberer(s: Marche, commande: nat, p: nat, q: real)
    requires Saine(s) && p < |s.publications| && LigneDe(s.resas, commande).None? && 0.0 < q <= s.publications[p].disponible
    ensures Liberer(Reserver(s, commande, Some(p), q).0, commande).publications == s.publications
    ensures Liberer(Reserver(s, commande, Some(p), q).0, commande).recoltes == s.recoltes
  {
    var s' := Reserver(s, commande, Some(p), q).0;
    AppliquerSaine(s, OReserver(commande, Some(p), q));
    LigneStable(s'.resas, |s.resas|, commande);
  }

  // ── Harvests ────────────────────────────────────────────────────────────

  /** The harvest each publication sells, fixed for its life. */
  function Liens(s: Marche): seq<Option<nat>> { seq(|s.publications|, p requires 0 <= p < |s.publications| => s.publications[p].recolte) }

  /** The row is a sale out of harvest r, through the market or direct. */
  predicate SortDe(liens: seq<Option<nat>>, r: nat, l: Resa) {
    l.recolte == Some(r) || (l.publication.Some? && l.publication.value < |liens| && liens[l.publication.value] == Some(r))
  }

  function VenduPar(liens: seq<Option<nat>>, r: nat): Resa -> real {
    (l: Resa) => if l.statut == Convertie && SortDe(liens, r, l) then l.quantite else 0.0
  }

  /** A conversion of a reserved order names the publication and the quantity that were reserved. */
  predicate Coherente(s: Marche, o: Operation) {
    o.OConvertir? && StatutDe(s, o.commande) == Some(Active) ==>
      var l := s.resas[LigneDe(s.resas, o.commande).value];
      l.publication == o.publication && l.quantite == o.q
  }

  /** What harvest r sold beyond the converted rows attached to it: the amount it started with. */
  function HorsLignes(s: Marche, r: nat): real
    requires r < |s.recoltes|
  {
    s.recoltes[r].vendu - Somme(VenduPar(Liens(s), r), s.resas)
  }

  /** The rows a conversion leaves: one more sale of q out of the harvest its publication is linked to. */
  lemma ConversionLignes(s: Marche, commande: nat, p: nat, q: real, r: nat)
    requires Saine(s) && p < |s.publications|
    requires var i := LigneDe(s.resas, commande);
      i.Some? ==> s.resas[i.value].statut == Active && s.resas[i.value].publication == Some(p) && s.resas[i.value].quantite == q
    ensures Somme(VenduPar(Liens(s), r), EcrireConversion(s, commande, p, q).resas)
         == Somme(VenduPar(Liens(s), r), s.resas) + if s.publications[p].recolte == Some(r) then q else 0.0
  {
    var i := LigneDe(s.resas, commande);
    if i.Some? { SommeMaj(VenduPar(Liens(s), r), s.resas, i.value, s.resas[i.value].(statut := Convertie)); }
    else { SommeAjout(VenduPar(Liens(s), r), s.resas, Resa(commande, Some(p), None, q, Convertie)); }
  }

  lemma VendreUneRecolte(rs: seq<Recolte>, recolte: Option<nat>, q: real, r: nat)
    requires r < |rs|
    ensures |VendreRecolte(rs, recolte, q)| == |rs|
    ensures VendreRecolte(rs, recolte, q)[r].vendu == rs[r].vendu + if recolte == Some(r) then q else 0.0
  {
  }

  lemma ConversionVendu(s: Marche, commande: nat, p: nat, q: real, r: nat)
    requires Saine(s) && p < |s.publications| && r < |s.recoltes|
    requires var i := LigneDe(s.resas, commande);
      i.Some? ==> s.resas[i.value].statut == Active && s.resas[i.value].publication == Some(p) && s.resas[i.value].quantite == q
    ensures var s' := EcrireConversion(s, commande, p, q);
      && |s'.recoltes| == |s.recoltes|
      && s'.recoltes[r].vendu - s.recoltes[r].vendu
         == Somme(VenduPar(Liens(s), r), s'.resas) - Somme(VenduPar(Liens(s), r), s.resas)
  {
    ConversionLignes(s, commande, p, q, r);
    VendreUneRecolte(s.recoltes, s.publications[p].recolte, q, r);
  }

  lemma LiberationVendu(s: Marche, i: nat, r: nat)
    requires Saine(s) && i < |s.resas| && s.resas[i].statut == Active
    ensures Somme(VenduPar(Liens(s), r), EcrireLiberation(s, i).resas) == Somme(VenduPar(Liens(s), r), s.resas)
  {
    SommeMaj(VenduPar(Liens(s), r), s.resas, i, s.resas[i].(statut := Liberee));
  }

  lemma ReservationVendu(s: Marche, commande: nat, p: nat, q: real, r: nat)
    requires p < |s.publications|
    ensures Somme(VenduPar(Liens(s), r), EcrireReservation(s, commande, p, q).resas) == Somme(VenduPar(Liens(s), r), s.resas)
  {
    SommeAjout(VenduPar(Liens(s), r), s.resas, Resa(commande, Some(p), None, q, Active));
  }

  lemma VenteDirecteVendu(s: Marche, commande: nat, rec: nat, q: real, r: nat)
    ensures Somme(VenduPar(Liens(s), r), EcrireVenteDirecte(s, commande, rec, q).resas)
         == Somme(VenduPar(Liens(s), r), s.resas) + if rec == r then q else 0.0
  {
    SommeAjout(VenduPar(Liens(s), r), s.resas, Resa(commande, None, Some(rec), q, Convertie));
  }

  lemma AutresVendu(s: Marche, o: Operation, r: nat)
    requires Saine(s) && r < |s.recoltes| && !o.OConvertir? && Appliquer(s, o) != s
    ensures var s' := Appliquer(s, o);
      |s'.recoltes| == |s.recoltes|
      && s'.recoltes[r].vendu - s.recoltes[r].vendu
         == Somme(VenduPar(Liens(s), r), s'.resas) - Somme(VenduPar(Liens(s), r), s.resas)
  {
    match o
    case OLiberer(c) => LiberationVendu(s, LigneDe(s.resas, c).value, r);
    case OReserver(c, p, q) => ReservationVendu(s, c, p.value, q, r);
    case OVenteDirecte(c, rec, q) => VenteDirecteVendu(s, c, rec.value, q, r);
  }

  /** stock_vendu grows by exactly the quantities of the rows converted out of the harvest. */
  lemma VenduSuitLignes(s: Marche, o: Operation, r: nat)
    requires Saine(s) && Coherente(s, o) && r < |s.recoltes|
    ensures |Appliquer(s, o).recoltes| == |s.recoltes| && Liens(Appliquer(s, o)) == Liens(s)
    ensures HorsLignes(Appliquer(s, o), r) == HorsLignes(s, r)
  {
    AppliquerSaine(s, o);
    assert Liens(Appliquer(s, o)) == Liens(s);
    if Appliquer(s, o) != s {
      if o.OConvertir? { ConversionVendu(s, o.commande, o.publication.value, o.q, r); } else { AutresVendu(s, o, r); }
    }
  }

  /** The conversion writes: its order has no row and a quantity, or a row still active. */
  predicate ConversionEffective(s: Marche, commande: nat, q: real) {
    StatutDe(s, commande) == Some(Active) || (StatutDe(s, commande) == None && q > 0.0)
  }

  /** What an operation takes out of harvest r: its quantity, when it sells through a publication of r or out of r itself. */
  function Sortie(s: Marche, o: Operation, r: nat): real {
    match o
    case OConvertir(c, p, q) =>
      if p.Some? && p.value < |s.publications| && s.publications[p.value].recolte == Some(r) && ConversionEffective(s, c, q) then q else 0.0
    case OVenteDirecte(c, rec, q) => if rec == Some(r) && q > 0.0 && StatutDe(s, c).None? then q else 0.0
    case _ => 0.0
  }

  /** What GREATEST(0, …) hides on harvest r: the part of that quantity the harvest does not have. */
  function ManqueRecolte(s: Marche, o: Operation, r: nat): real
    requires r < |s.recoltes|
  {
    Max(0.0, Sortie(s, o, r) - s.recoltes[r].disponible)
  }

  /**
   A harvest sells exactly what each operation takes out of it, down to nothing available; so available + sold is
   conserved up to what the clamp hid, and the sold amount never goes down.
   */
  lemma RecolteConservee(s: Marche, o: Operation, r: nat)
    requires Saine(s) && Coherente(s, o) && r < |s.recoltes|
    ensures var s' := Appliquer(s, o);
      && |s'.recoltes| == |s.recoltes|
      && s'.recoltes[r].vendu == s.recoltes[r].vendu + Sortie(s, o, r)
      && s'.recoltes[r].disponible == Max(0.0, s.recoltes[r].disponible - Sortie(s, o, r))
      && s'.recoltes[r].disponible + s'.recoltes[r].vendu
         == s.recoltes[r].disponible + s.recoltes[r].vendu + ManqueRecolte(s, o, r)
      && Sortie(s, o, r) >= 0.0
  {
    AppliquerSaine(s, o);
  }

  /** A conversion that writes never leaves an emptied publication on offer, and nothing else changes a status. */
  lemma FinDePublication(s: Marche, o: Operation, p: nat)
    requires Saine(s) && p < |s.publications|
    ensures var s' := Appliquer(s, o);
      && |s'.publications| == |s.publications|
      && (o.OConvertir? && s' != s && o.publication == Some(p) ==>
            !(s'.publications[p].disponible == 0.0 && s'.publications[p].statut == Disponible))
      && (s'.publications[p].statut != s.publications[p].statut ==>
            o.OConvertir? && s.publications[p].statut == Disponible && s'.publications[p].statut == Epuise
            && s'.publications[p].disponible == 0.0)
  {
    AppliquerSaine(s, o);
  }

  /** A harvest sold to the last is marked sold and stays so, and is not before. */
  lemma FinDeRecolte(s: Marche, o: Operation, r: nat)
    requires Saine(s) && r < |s.recoltes|
    ensures var s' := Appliquer(s, o);
      && |s'.recoltes| == |s.recoltes|
      && (s'.recoltes[r] != s.recoltes[r] ==>
            (s'.recoltes[r].vendue <==> s.recoltes[r].vendue || s'.recoltes[r].disponible == 0.0))
  {
    AppliquerSaine(s, o);
  }
}
