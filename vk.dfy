/** The pieces of the Vulkan API (through vulkanalia) that instance creation
    touches, as abstract values: extension names, instance-create flags,
    driver error codes and instance handles. */
module Vk {

  /** An instance extension name. The two portability extensions are named;
      every other extension (those the windowing library asks for) is carried
      by its name. */
  datatype ExtensionName =
    | KhrGetPhysicalDeviceProperties2
    | KhrPortabilityEnumeration
    | Named(name: string)

  /** The bits of `vk::InstanceCreateFlags` used here. */
  datatype InstanceCreateFlag = EnumeratePortabilityKhr

  /** A flag set; `{}` is `InstanceCreateFlags::empty()`. */
  type InstanceCreateFlags = set<InstanceCreateFlag>

  /** A non-success result code returned by a driver call. */
  datatype VkError = VkError(code: int)

  /** What a fallible driver call returns (`VkResult<T>`), and what `?`
      propagates to the caller unchanged. */
  datatype Result<T> = Ok(value: T) | Err(error: VkError)

  datatype Option<T> = None | Some(value: T)

  /** A live instance handle, opaque to this model. */
  datatype Instance = Instance(handle: nat)
}
