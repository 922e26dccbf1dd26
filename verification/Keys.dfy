/** Internal keys and their order (dbformat.h, dbformat.cc).

    A user key is a point of a total order: the engine only ever compares user keys, and
    every countable total order, hence every comparator over byte strings, embeds in the
    reals (ByteOrder proves the embedding for the default bytewise comparator). */
module Keys {

  const NUM_LEVELS: nat := 7
  const MAX_MEM_COMPACT_LEVEL: nat := 2
  const MAX_SEQUENCE: nat := 0xff_ffff_ffff_ffff

  type UserKey = real

  /** Eight bits of the 64-bit tag are left for the type. */
  type SequenceNumber = n: nat | n <= MAX_SEQUENCE

  datatype ValueType = TypeDeletion | TypeValue

  datatype InternalKey = InternalKey(user: UserKey, sequence: SequenceNumber, kind: ValueType)

  function TypeCode(t: ValueType): nat {
    if t.TypeValue? then 1 else 0
  }

  /** The 64-bit tag that ends an encoded internal key. */
  function Pack(k: InternalKey): nat {
    k.sequence * 256 + TypeCode(k.kind)
  }

  /** Increasing user key, then decreasing tag. */
  predicate Less(a: InternalKey, b: InternalKey) {
    a.user < b.user || (a.user == b.user && Pack(a) > Pack(b))
  }

  /** The key a lookup at a snapshot seeks to: kValueTypeForSeek is TypeValue. */
  function SeekKey(user: UserKey, snapshot: SequenceNumber): InternalKey {
    InternalKey(user, snapshot, TypeValue)
  }

  /** The larger sequence number comes first, and with equal ones a value before a deletion. */
  lemma LessByNumbers(a: InternalKey, b: InternalKey)
    ensures Less(a, b) <==>
      || a.user < b.user
      || (a.user == b.user && a.sequence > b.sequence)
      || (a.user == b.user && a.sequence == b.sequence && a.kind == TypeValue && b.kind == TypeDeletion)
  {
  }

  /** Keys compare equal only when they are equal. */
  lemma LessTotal(a: InternalKey, b: InternalKey)
    ensures a == b || Less(a, b) || Less(b, a)
  {
  }

  /** Seeking skips exactly the entries of the user key that are too new. */
  lemma SeekSkipsTooNew(k: InternalKey, snapshot: SequenceNumber)
    ensures Less(k, SeekKey(k.user, snapshot)) <==> k.sequence > snapshot
  {
  }
}
