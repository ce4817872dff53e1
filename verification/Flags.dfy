/** The two flag octets, as the structs esm_class and registered_delivery. */
module Flags {
  import opened Octets

  /** Each field holds the bits of its enum in place. */
  datatype EsmClass = EsmClass(messagingMode: bv8, messageType: bv8, gsmNetworkFeatures: bv8) {

    static function FromBits(v: bv8): EsmClass {
      EsmClass(v & 0x03, v & 0x3C, v & 0xC0)
    }

    static function FromU8(value: Octet): EsmClass {
      FromBits(value as bv8)
    }

    function Bits(): bv8 {
      messagingMode | messageType | gsmNetworkFeatures
    }

    function ToU8(): Octet {
      Bits() as int
    }

    /** No field uses a bit outside its mask. */
    predicate WithinMasks() {
      messagingMode & 0x03 == messagingMode && messageType & 0x3C == messageType &&
      gsmNetworkFeatures & 0xC0 == gsmNetworkFeatures
    }

    /** gsm_network_features is `uhdi` or `both`. */
    predicate HasUdhi() {
      gsmNetworkFeatures == 0x40 || gsmNetworkFeatures == 0xC0
    }
  }

  datatype RegisteredDelivery = RegisteredDelivery(
    smscDeliveryReceipt: bv8, smeOriginatedAck: bv8, intermediateNotification: bv8)
  {
    static function FromBits(v: bv8): RegisteredDelivery {
      RegisteredDelivery(v & 0x03, v & 0x0C, v & 0x10)
    }

    static function FromU8(value: Octet): RegisteredDelivery {
      FromBits(value as bv8)
    }

    function Bits(): bv8 {
      smscDeliveryReceipt | smeOriginatedAck | intermediateNotification
    }

    function ToU8(): Octet {
      Bits() as int
    }

    predicate WithinMasks() {
      smscDeliveryReceipt & 0x03 == smscDeliveryReceipt && smeOriginatedAck & 0x0C == smeOriginatedAck &&
      intermediateNotification & 0x10 == intermediateNotification
    }
  }

  lemma BitsOfU8(b: bv8)
    ensures 0 <= b as int < 0x100 && (b as int) as bv8 == b
  {
  }

  lemma U8OfBits(value: nat)
    requires value < 0x100
    ensures (value as bv8) as nat == value
  {
    if value == 0 {
    } else {
      U8OfBits(value - 1);
      assert value as bv8 == ((value - 1) as bv8) + 1;
    }
  }

  lemma EsmBits(e: EsmClass)
    ensures EsmClass.FromBits(e.Bits()) == e <==> e.WithinMasks()
  {
  }

  lemma DeliveryBits(r: RegisteredDelivery)
    ensures RegisteredDelivery.FromBits(r.Bits()) == r <==> r.WithinMasks()
  {
  }

  /** An esm_class value comes back exactly when it respects its masks. */
  lemma EsmClassRoundTrip(e: EsmClass)
    ensures EsmClass.FromU8(e.ToU8()) == e <==> e.WithinMasks()
  {
    BitsOfU8(e.Bits());
    assert EsmClass.FromU8(e.ToU8()) == EsmClass.FromBits(e.Bits());
    EsmBits(e);
  }

  lemma RegisteredDeliveryRoundTrip(r: RegisteredDelivery)
    ensures RegisteredDelivery.FromU8(r.ToU8()) == r <==> r.WithinMasks()
  {
    BitsOfU8(r.Bits());
    assert RegisteredDelivery.FromU8(r.ToU8()) == RegisteredDelivery.FromBits(r.Bits());
    DeliveryBits(r);
  }

  lemma EsmBitsSurvive(v: bv8)
    ensures EsmClass.FromBits(v).WithinMasks() && EsmClass.FromBits(v).Bits() == v
  {
  }

  lemma DeliveryBitsKept(v: bv8)
    ensures RegisteredDelivery.FromBits(v).WithinMasks() && RegisteredDelivery.FromBits(v).Bits() == v & 0x1F
  {
  }

  /** Which bits of the octet each field takes, in place. */
  lemma EsmClassBits(value: Octet)
    ensures var e := EsmClass.FromU8(value);
            && e.messagingMode as int == value % 4
            && e.messageType as int == value / 4 % 16 * 4
            && e.gsmNetworkFeatures as int == value / 64 * 64
  {
    U8OfBits(value);
    LowTwo(value as bv8);
    MiddleFour(value as bv8);
    HighTwo(value as bv8);
  }

  lemma LowTwo(v: bv8)
    ensures (v & 0x03) as int == v as int % 4
  {
  }

  lemma MiddleFour(v: bv8)
    ensures (v & 0x3C) as int == v as int / 4 % 16 * 4
  {
    assert v & 0x3C == ((v >> 2) & 0x0F) << 2;
    assert (v >> 2) as int == v as int / 4;
    LowFour(v >> 2);
    TimesFour((v >> 2) & 0x0F);
  }

  lemma LowFour(v: bv8)
    ensures (v & 0x0F) as int == v as int % 16
  {
  }

  lemma TimesFour(v: bv8)
    requires v <= 0x0F
    ensures (v << 2) as int == v as int * 4
  {
  }

  lemma HighTwo(v: bv8)
    ensures (v & 0xC0) as int == v as int / 64 * 64
  {
  }

  lemma RegisteredDeliveryBits(value: Octet)
    ensures var r := RegisteredDelivery.FromU8(value);
            && r.smscDeliveryReceipt as int == value % 4
            && r.smeOriginatedAck as int == value / 4 % 4 * 4
            && r.intermediateNotification as int == value / 16 % 2 * 16
  {
    U8OfBits(value);
    LowTwo(value as bv8);
    NextTwo(value as bv8);
    FifthBit(value as bv8);
  }

  lemma NextTwo(v: bv8)
    ensures (v & 0x0C) as int == v as int / 4 % 4 * 4
  {
    assert v & 0x0C == ((v >> 2) & 0x03) << 2;
    assert (v >> 2) as int == v as int / 4;
    LowTwo(v >> 2);
    TimesFour((v >> 2) & 0x03);
  }

  lemma FifthBit(v: bv8)
    ensures (v & 0x10) as int == v as int / 16 % 2 * 16
  {
  }

  /** There is a user data header exactly if bit 6 of the octet is set. */
  lemma UdhiIsBit6(value: Octet)
    ensures EsmClass.FromU8(value).HasUdhi() <==> value / 0x40 % 2 == 1
  {
    U8OfBits(value);
    UdhiBit(value as bv8);
  }

  lemma UdhiBit(v: bv8)
    ensures v & 0xC0 == 0x40 || v & 0xC0 == 0xC0 <==> v as int / 0x40 % 2 == 1
  {
  }

  /** The masks of esm_class cover the octet, so it survives decoding whole. */
  lemma EsmClassOctetSurvives(value: Octet)
    ensures EsmClass.FromU8(value).WithinMasks()
    ensures EsmClass.FromU8(value).ToU8() == value
  {
    EsmBitsSurvive(value as bv8);
    U8OfBits(value);
  }

  /** The masks of registered_delivery cover only the low five bits. */
  lemma RegisteredDeliveryKeepsLowFiveBits(value: Octet)
    ensures RegisteredDelivery.FromU8(value).WithinMasks()
    ensures RegisteredDelivery.FromU8(value).ToU8() == value % 0x20
  {
    DeliveryBitsKept(value as bv8);
    U8OfBits(value);
    LowFive(value as bv8);
  }

  lemma LowFive(v: bv8)
    ensures (v & 0x1F) as int == v as int % 0x20
  {
  }
}
