/** Model-catalog gating: `BaseModelConfig.__init__` and the chat and
    vision catalogs of `ChatModelConfig` and `VisionModelConfig`. */
module Models {
  import opened Wrappers

  /** A validated model choice: the name and the catalog it was checked against. */
  datatype ModelConfig = ModelConfig(modelName: string, availableModels: seq<string>)

  /** `ModelNotFoundError`; its message lists the catalog that was searched. */
  datatype ModelNotFound = ModelNotFound(availableModels: seq<string>)

  const ChatModels: seq<string> := [
    "Meta-Llama-3.1-405B-Instruct",
    "Meta-Llama-3.1-70B-Instruct",
    "Meta-Llama-3.1-8B-Instruct",
    "Meta-Llama-3.2-1B-Instruct",
    "Meta-Llama-3.2-3B-Instruct",
    "Meta-Llama-Guard-3-8B",
    "Meta-Llama-3.3-70B-Instruct",
    "QwQ-32B-Preview",
    "Qwen2.5-Coder-32B-Instruct",
    "Qwen2.5-72B-Instruct"
  ]

  const VisionModels: seq<string> := [
    "Llama-3.2-11B-Vision-Instruct",
    "Llama-3.2-90B-Vision-Instruct"
  ]

  /** The default argument of `ChatModelConfig.__init__`. */
  const DefaultChatModel: string := "Meta-Llama-3.2-1B-Instruct"

  /** The default argument of `VisionModelConfig.__init__`. */
  const DefaultVisionModel: string := "Llama-3.2-11B-Vision-Instruct"

  /** `BaseModelConfig(model_name, available_models)`: succeeds exactly when
      the name is in the catalog, and then keeps both unchanged; otherwise
      raises ModelNotFound carrying the catalog. */
  function NewModelConfig(modelName: string, availableModels: seq<string>): (r: Result<ModelConfig, ModelNotFound>)
    ensures r.Success? <==> modelName in availableModels
    ensures r.Success? ==> r.value.modelName == modelName && r.value.availableModels == availableModels
    ensures r.Failure? ==> r.error.availableModels == availableModels
  {
    if modelName !in availableModels then Failure(ModelNotFound(availableModels))
    else Success(ModelConfig(modelName, availableModels))
  }

  /** `ChatModelConfig(model_name)`. */
  function ChatModelConfig(modelName: string): (r: Result<ModelConfig, ModelNotFound>)
    ensures r.Success? <==> modelName in ChatModels
    ensures r.Success? ==> r.value == ModelConfig(modelName, ChatModels)
    ensures r.Failure? ==> r.error == ModelNotFound(ChatModels)
  {
    NewModelConfig(modelName, ChatModels)
  }

  /** `VisionModelConfig(model_name)`. */
  function VisionModelConfig(modelName: string): (r: Result<ModelConfig, ModelNotFound>)
    ensures r.Success? <==> modelName in VisionModels
    ensures r.Success? ==> r.value == ModelConfig(modelName, VisionModels)
    ensures r.Failure? ==> r.error == ModelNotFound(VisionModels)
  {
    NewModelConfig(modelName, VisionModels)
  }

  /** The argument-less constructors never raise: each default model is in
      its own catalog. */
  lemma DefaultsAccepted()
    ensures ChatModelConfig(DefaultChatModel) == Success(ModelConfig(DefaultChatModel, ChatModels))
    ensures VisionModelConfig(DefaultVisionModel) == Success(ModelConfig(DefaultVisionModel, VisionModels))
  {
  }

  /** No model name is accepted by both catalogs. */
  lemma CatalogsDisjoint(modelName: string)
    ensures !(ChatModelConfig(modelName).Success? && VisionModelConfig(modelName).Success?)
  {
  }
}
