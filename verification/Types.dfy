/** Types the models share. */
module Types {

  type byte = b: int | 0 <= b < 0x100

  type uint16 = n: int | 0 <= n < 0x1_0000

  /** The delivery guarantees of section 4.3 of MQTT 3.1.1. */
  datatype QoS = QoS0 | QoS1 | QoS2
}
