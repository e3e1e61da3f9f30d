/**
 * The bus transport and the two GPIO output lines the SSD1306 driver uses,
 * seen from the driver: an append-only trace of attempted operations.
 *
 * Which attempts fail is fixed up front by `failing`: the n-th operation
 * ever attempted on the bus (counting from 0, pin writes and transfers
 * alike) fails exactly when n is in `failing`.  A failed operation is
 * still recorded, since it was attempted.
 */
module Transport {

  /** One byte on the wire (Go's `byte`). */
  type Byte = bv8

  /** Go's `uint8(n)`: keep the low eight bits of an int. */
  function Truncate(n: int): Byte
  {
    (n % 256) as Byte
  }

  /** The two output lines: data/command select and reset. */
  datatype Line = DC | RST

  datatype Level = Low | High

  datatype Event =
    | Pin(line: Line, level: Level)   // a digital-pin write
    | Tx(data: seq<Byte>)             // one SPI transfer of `data`

  datatype Error =
    | PinError            // a pin write failed
    | TransportError      // an SPI transfer failed
    | DimensionMismatch   // ShowImage got an image of the wrong size

  class Bus {
    var trace: seq<Event>
    const failing: set<nat>

    constructor (failing: set<nat>)
      ensures trace == [] && this.failing == failing
    {
      trace := [];
      this.failing := failing;
    }

    /** `driver.DigitalPin.Write(level)` on `line`. */
    method WritePin(line: Line, level: Level) returns (ok: bool)
      modifies this
      ensures trace == old(trace) + [Pin(line, level)]
      ensures ok <==> |old(trace)| !in failing
    {
      ok := |trace| !in failing;
      trace := trace + [Pin(line, level)];
    }

    /** `connection.Tx(data, nil)`. */
    method Transfer(data: seq<Byte>) returns (ok: bool)
      modifies this
      ensures trace == old(trace) + [Tx(data)]
      ensures ok <==> |old(trace)| !in failing
    {
      ok := |trace| !in failing;
      trace := trace + [Tx(data)];
    }
  }
}
