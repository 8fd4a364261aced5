/**
 * The domain identifiers HermesMetrics reads names from: a topic is a
 * (group name, topic name) pair and a subscription belongs to one topic.
 * Only the getters the metric code calls are modelled.
 */
module Api {

  datatype TopicName = TopicName(groupName: string, name: string)

  datatype Subscription = Subscription(topicName: TopicName, name: string)
}
