/** The agent's configuration record (the `config` struct), read once at startup. */
module Configuration {
  import opened GoTypes

  /** Field for field the `config` struct; intervals are whole seconds. */
  datatype Config = Config(
    sendIntervalSec: int,
    reconnectIntervalSec: int,
    topicPrefix: GoString,
    topicSuffix: GoString,
    brokers: GoString,
    qos: int,
    retained: bool,
    command: GoString,
    startupPause: int,
    base64Encode: bool)

  /** The values the struct tags give when the environment sets nothing. */
  function Defaults(): Config {
    Config(
      sendIntervalSec := 60,
      reconnectIntervalSec := 30,
      topicPrefix := Ascii("pialive/"),
      topicSuffix := [],
      brokers := Ascii("tcp://broker.hivemq.com:1883,tcp://test.mosquitto.org:1883"),
      qos := 1,
      retained := true,
      command := Ascii("ifconfig"),
      startupPause := 5,
      base64Encode := true)
  }

  /** Go's conversion `byte(cfg.Qos)`: keeps the low 8 bits of the two's-complement
      value, which is the Euclidean remainder modulo 256, negative values included. */
  function QosByte(qos: int): (b: byte)
    ensures 0 <= qos < 256 ==> b == qos
    ensures (qos - b) % 256 == 0
  {
    qos % 256
  }

  /** A negative QoS wraps around: `byte(-1)` is 255. */
  lemma QosByteWraps()
    ensures QosByte(-1) == 255
  {
  }
}
