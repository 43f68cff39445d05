/** Value types shared by every part of the model. */
module Types {
  datatype Option<+T> = None | Some(value: T)

  type U16 = n: int | 0 <= n < 0x1_0000
  type U64 = n: int | 0 <= n < 0x1_0000_0000_0000_0000

  const U16_MAX: U16 := 0xFFFF
  const U64_MAX: U64 := 0xFFFF_FFFF_FFFF_FFFF

  datatype Transport = TCP | UDP

  datatype Service = Service(id: U64, name: string, transport: Transport, host: string, port: U16)

  datatype Status = Active | Inactive

  datatype User = User(id: U64, name: string, status: Status)

  datatype ServiceAccess = ServiceAccess(user: U64, service: U64)

  /** Printed (peer, local) addresses of an accepted client connection. */
  type ProxyAddrs = (string, string)

  type Byte = n: int | 0 <= n < 256
  type Bytes = seq<Byte>
}
