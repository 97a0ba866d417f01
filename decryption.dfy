/** Fare decryption: every fare in the table is shifted down by a fixed key. */
module Decryption {
  import opened TaxiTypes

  const DecryptionKey: int := 3200

  /** The real fare hidden in a recorded fare. */
  function DecryptFare(fare: int): int
  {
    fare - DecryptionKey
  }

  /** The recorded fare a real fare came from, as the detector reports it. */
  function OriginalFare(fare: int): int
  {
    fare + DecryptionKey
  }

  /** Decrypting and re-adding the key are inverse to each other. */
  lemma FareRoundTrip(fare: int)
    ensures OriginalFare(DecryptFare(fare)) == fare
    ensures DecryptFare(OriginalFare(fare)) == fare
  {
  }

  /** The fare column of `trips`, decrypted; every other column unchanged. */
  function Decrypted(trips: seq<Trip>): (r: seq<Trip>)
    ensures |r| == |trips|
    ensures forall i :: 0 <= i < |trips| ==>
      r[i].lat == trips[i].lat && r[i].lon == trips[i].lon && r[i].ts == trips[i].ts &&
      r[i].car == trips[i].car && OriginalFare(r[i].fare) == trips[i].fare
  {
    seq(|trips|, i requires 0 <= i < |trips| => trips[i].(fare := DecryptFare(trips[i].fare)))
  }

  /** Replaces the fare column of the table by its decrypted values, in place. */
  method DecryptFares(table: array<Trip>)
    modifies table
    ensures table[..] == Decrypted(old(table[..]))
  {
    for i := 0 to table.Length
      invariant forall p :: 0 <= p < i ==> table[p] == old(table[p]).(fare := DecryptFare(old(table[p]).fare))
      invariant forall p :: i <= p < table.Length ==> table[p] == old(table[p])
    {
      table[i] := table[i].(fare := DecryptFare(table[i].fare));
    }
  }
}
