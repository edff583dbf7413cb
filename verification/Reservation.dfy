/**
 Stock reservations of orders: stock-reservation.service.ts and its call sites in
 commandes-rest.controller.ts, as functions of the tables.
 */
module Reservation {
  import opened Commun

  datatype StatutPublication = Disponible | Epuise | AutreStatut
  datatype Publication = Publication(disponible: real, recolte: Option<nat>, statut: StatutPublication)
  datatype Recolte = Recolte(disponible: real, vendu: real, vendue: bool)

  datatype StatutResa = Active | Convertie | Liberee
  /** A row of stock_reservations; commande is unique (ux_stock_reservations_commande). */
  datatype Resa = Resa(commande: nat, publication: Option<nat>, recolte: Option<nat>, quantite: real, statut: StatutResa)

  datatype Marche = Marche(publications: seq<Publication>, recoltes: seq<Recolte>, resas: seq<Resa>)

  datatype RefusStock = PublicationIntrouvable | RecolteIntrouvable | StockInsuffisant

  /** The reservation row of an order. */
  function LigneDe(resas: seq<Resa>, commande: nat): (r: Option<nat>)
    ensures r.Some? ==> r.value < |resas| && resas[r.value].commande == commande
    ensures r.None? ==> forall i :: 0 <= i < |resas| ==> resas[i].commande != commande
  {
    if resas == [] then None
    else if resas[|resas| - 1].commande == commande then Some(|resas| - 1)
    else LigneDe(resas[..|resas| - 1], commande)
  }

  // ── The service ─────────────────────────────────────────────────────────

  function Reserver(s: Marche, commande: nat, publication: Option<nat>, q: real): (Marche, Option<RefusStock>) {
    if publication.None? || q <= 0.0 || LigneDe(s.resas, commande).Some? then (s, None)
    else
      var p := publication.value;
      if p >= |s.publications| then (s, Some(PublicationIntrouvable))
      else if q > s.publications[p].disponible then (s, Some(StockInsuffisant))
      else (EcrireReservation(s, commande, p, q), None)
  }

  function EcrireReservation(s: Marche, commande: nat, p: nat, q: real): Marche
    requires p < |s.publications|
  {
    var pub := s.publications[p];
    s.(publications := s.publications[p := pub.(disponible := pub.disponible - q)],
       resas := s.resas + [Resa(commande, Some(p), None, q, Active)])
  }

  function VendreRecolte(rs: seq<Recolte>, recolte: Option<nat>, q: real): seq<Recolte> {
    if recolte.None? || recolte.value >= |rs| then rs
    else
      var r := rs[recolte.value];
      var reste := Max(0.0, r.disponible - q);
      rs[recolte.value := Recolte(reste, r.vendu + q, r.vendue || reste == 0.0)]
  }

  function Epuiser(pub: Publication): Publication {
    if pub.disponible == 0.0 && pub.statut == Disponible then pub.(statut := Epuise) else pub
  }

  /** The writes of a conversion: the row (updated or inserted), the harvest, the publication. */
  function EcrireConversion(s: Marche, commande: nat, p: nat, q: real): Marche
    requires p < |s.publications|
  {
    var pub := s.publications[p];
    var i := LigneDe(s.resas, commande);
    var vidange := if i.Some? then pub else pub.(disponible := Max(0.0, pub.disponible - q));
    Marche(
      s.publications[p := Epuiser(vidange)],
      VendreRecolte(s.recoltes, pub.recolte, q),
      if i.Some? then s.resas[i.value := s.resas[i.value].(statut := Convertie)]
      else s.resas + [Resa(commande, Some(p), None, q, Convertie)])
  }

  function Convertir(s: Marche, commande: nat, publication: Option<nat>, q: real): Marche {
    if publication.None? || publication.value >= |s.publications| then s
    else
      var i := LigneDe(s.resas, commande);
      if i.Some? && s.resas[i.value].statut != Active then s
      else if i.None? && q <= 0.0 then s
      else EcrireConversion(s, commande, publication.value, q)
  }

  function EcrireVenteDirecte(s: Marche, commande: nat, r: nat, q: real): Marche {
    s.(recoltes := VendreRecolte(s.recoltes, Some(r), q),
       resas := s.resas + [Resa(commande, None, Some(r), q, Convertie)])
  }

  function ConvertirRecolteDirecte(s: Marche, commande: nat, recolte: Option<nat>, q: real): (Marche, Option<RefusStock>) {
    if recolte.None? || q <= 0.0 || LigneDe(s.resas, commande).Some? then (s, None)
    else if recolte.value >= |s.recoltes| then (s, Some(RecolteIntrouvable))
    else (EcrireVenteDirecte(s, commande, recolte.value, q), None)
  }

  function EcrireLiberation(s: Marche, i: nat): Marche
    requires i < |s.resas|
  {
    var l := s.resas[i];
    s.(publications :=
         if l.publication.Some? && l.publication.value < |s.publications| then
           var pub := s.publications[l.publication.value];
           s.publications[l.publication.value := pub.(disponible := pub.disponible + l.quantite)]
         else s.publications,
       resas := s.resas[i := l.(statut := Liberee)])
  }

  function Liberer(s: Marche, commande: nat): Marche {
    var i := LigneDe(s.resas, commande);
    if i.None? || s.resas[i.value].statut != Active then s else EcrireLiberation(s, i.value)
  }

  // ── One transaction of the service ──────────────────────────────────────

  datatype Operation =
    | OReserver(commande: nat, publication: Option<nat>, q: real)
    | OConvertir(commande: nat, publication: Option<nat>, q: real)
    | OVenteDirecte(commande: nat, recolte: Option<nat>, q: real)
    | OLiberer(commande: nat)

  function Appliquer(s: Marche, o: Operation): Marche {
    match o
    case OReserver(c, p, q) => Reserver(s, c, p, q).0
    case OConvertir(c, p, q) => Convertir(s, c, p, q)
    case OVenteDirecte(c, r, q) => ConvertirRecolteDirecte(s, c, r, q).0
    case OLiberer(c) => Liberer(s, c)
  }

  function AppliquerTout(s: Marche, os: seq<Operation>): Marche {
    if os == [] then s else Appliquer(AppliquerTout(s, os[..|os| - 1]), os[|os| - 1])
  }
}
