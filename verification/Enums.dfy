/** The `u8` enumerations of the control protocol and their total conversions from a byte. */
module Enums {
  import opened Bytes

  datatype CommandCode =
    | Reserved
    | SetEndpointID
    | GetEndpointID
    | GetEndpointUUID
    | GetMCTPVersionSupport
    | GetMessageTypeSupport
    | GetVendorDefinedMessageSupport
    | ResolveEndpointID
    | AllocateEndpointIDs
    | RoutingInformationUpdate
    | GetRoutingTableEntries
    | PrepareForEndpointDiscovery
    | EndpointDiscovery
    | DiscoveryNotify
    | GetNetworkID
    | QueryHop
    | ResolveUUID
    | QueryRateLimit
    | RequestTXRateLimit
    | UpdateRateLimit
    | QuerySupportedInterfaces
    | Unknown
  {
    function ToByte(): Byte {
      match this
      case Reserved => 0x00
      case SetEndpointID => 0x01
      case GetEndpointID => 0x02
      case GetEndpointUUID => 0x03
      case GetMCTPVersionSupport => 0x04
      case GetMessageTypeSupport => 0x05
      case GetVendorDefinedMessageSupport => 0x06
      case ResolveEndpointID => 0x07
      case AllocateEndpointIDs => 0x08
      case RoutingInformationUpdate => 0x09
      case GetRoutingTableEntries => 0x0A
      case PrepareForEndpointDiscovery => 0x0B
      case EndpointDiscovery => 0x0C
      case DiscoveryNotify => 0x0D
      case GetNetworkID => 0x0E
      case QueryHop => 0x0F
      case ResolveUUID => 0x10
      case QueryRateLimit => 0x11
      case RequestTXRateLimit => 0x12
      case UpdateRateLimit => 0x13
      case QuerySupportedInterfaces => 0x14
      case Unknown => 0xFF
    }
  }

  /** Every byte that names no command becomes `Unknown`. */
  function CommandCodeFromByte(b: Byte): CommandCode {
    match b
    case 0x00 => Reserved
    case 0x01 => SetEndpointID
    case 0x02 => GetEndpointID
    case 0x03 => GetEndpointUUID
    case 0x04 => GetMCTPVersionSupport
    case 0x05 => GetMessageTypeSupport
    case 0x06 => GetVendorDefinedMessageSupport
    case 0x07 => ResolveEndpointID
    case 0x08 => AllocateEndpointIDs
    case 0x09 => RoutingInformationUpdate
    case 0x0A => GetRoutingTableEntries
    case 0x0B => PrepareForEndpointDiscovery
    case 0x0C => EndpointDiscovery
    case 0x0D => DiscoveryNotify
    case 0x0E => GetNetworkID
    case 0x0F => QueryHop
    case 0x10 => ResolveUUID
    case 0x11 => QueryRateLimit
    case 0x12 => RequestTXRateLimit
    case 0x13 => UpdateRateLimit
    case 0x14 => QuerySupportedInterfaces
    case _ => Unknown
  }

  /** The bytes a command code can be written as. */
  predicate IsCommandByte(b: Byte) {
    b <= 0x14 || b == 0xFF
  }

  /** Reading what was written gives the command back; writing what was read gives the byte back
      exactly on the bytes that name a command or are 0xFF: every other byte comes back as 0xFF. */
  lemma CommandCodeRoundTrips(c: CommandCode, b: Byte)
    ensures CommandCodeFromByte(c.ToByte()) == c
    ensures CommandCodeFromByte(b).ToByte() == (if IsCommandByte(b) then b else 0xFF)
    ensures CommandCodeFromByte(b).Unknown? <==> b > 0x14
  {
    match c {
      case Reserved =>
      case _ =>
    }
  }

  datatype CompletionCode =
    | Success
    | Error
    | ErrorInvalidData
    | ErrorInvalidLength
    | ErrorNotReady
    | ErrorUnsupportedCmd
  {
    function ToByte(): Byte {
      match this
      case Success => 0x00
      case Error => 0x01
      case ErrorInvalidData => 0x02
      case ErrorInvalidLength => 0x03
      case ErrorNotReady => 0x04
      case ErrorUnsupportedCmd => 0x05
    }
  }

  function CompletionCodeFromByte(b: Byte): CompletionCode {
    match b
    case 0x00 => Success
    case 0x01 => Error
    case 0x02 => ErrorInvalidData
    case 0x03 => ErrorInvalidLength
    case 0x04 => ErrorNotReady
    case _ => ErrorUnsupportedCmd
  }

  datatype EidType = Dynamic | StaticSupported | StaticMatch | StaticMismatch {
    function ToByte(): Byte {
      match this
      case Dynamic => 0
      case StaticSupported => 1
      case StaticMatch => 2
      case StaticMismatch => 3
    }
  }

  function EidTypeFromByte(b: Byte): EidType {
    match b
    case 1 => StaticSupported
    case 2 => StaticMatch
    case 3 => StaticMismatch
    case _ => Dynamic
  }

  datatype EndpointType = Simple | BusOwnerOrBridge {
    function ToByte(): Byte { if Simple? then 0 else 1 }
  }

  function EndpointTypeFromByte(b: Byte): EndpointType {
    if b == 1 then BusOwnerOrBridge else Simple
  }

  datatype EidAssignmentStatus = Accepted | Rejected {
    function ToByte(): Byte { if Accepted? then 0 else 1 }
  }

  datatype EidAllocationStatus = NoPoolSupport | RequiresPoolAllocation | PoolAlreadyAllocated {
    function ToByte(): Byte {
      match this
      case NoPoolSupport => 0
      case RequiresPoolAllocation => 1
      case PoolAlreadyAllocated => 2
    }
  }

  function EidAllocationStatusFromByte(b: Byte): EidAllocationStatus {
    match b
    case 1 => RequiresPoolAllocation
    case 2 => PoolAlreadyAllocated
    case _ => NoPoolSupport
  }

  datatype AllocationStatus = AllocationAccepted | AllocationRejected {
    function ToByte(): Byte { if AllocationAccepted? then 0 else 1 }
  }

  function AllocationStatusFromByte(b: Byte): AllocationStatus {
    if b == 0 then AllocationAccepted else AllocationRejected
  }

  datatype SetEidOperation = SetEid | ForceEid | ResetEid | SetDiscoveredFlag {
    function ToByte(): Byte {
      match this
      case SetEid => 0
      case ForceEid => 1
      case ResetEid => 2
      case SetDiscoveredFlag => 3
    }
  }

  datatype AllocateOperation = AllocateEids | ForceAllocation | GetAllocationInfo {
    function ToByte(): Byte {
      match this
      case AllocateEids => 0
      case ForceAllocation => 1
      case GetAllocationInfo => 2
    }
  }

  /** The other conversions: a byte that names a value comes back as itself, any other as the default. */
  lemma EnumDefaults(b: Byte)
    ensures CompletionCodeFromByte(b).ToByte() == (if b <= 5 then b else 5)
    ensures EidTypeFromByte(b).ToByte() == (if b <= 3 then b else 0)
    ensures EndpointTypeFromByte(b).ToByte() == (if b <= 1 then b else 0)
    ensures EidAllocationStatusFromByte(b).ToByte() == (if b <= 2 then b else 0)
    ensures AllocationStatusFromByte(b).ToByte() == (if b <= 0 then b else 1)
    ensures [SetEid.ToByte(), ForceEid.ToByte(), ResetEid.ToByte(), SetDiscoveredFlag.ToByte()] == [0, 1, 2, 3]
    ensures [AllocateEids.ToByte(), ForceAllocation.ToByte(), GetAllocationInfo.ToByte()] == [0, 1, 2]
  {
  }
}
